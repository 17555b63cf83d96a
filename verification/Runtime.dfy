// Runs of discoveries.

module Runtime {
  import opened Types
  import opened Text
  import opened Snapshots
  import opened Builder
  import opened Merge
  import opened MergeGraph
  import opened MergeTheorems
  import opened Attach
  import opened Diff

  // ---- Histories -----------------------------------------------------------------

  // Each publication keeps the generation or raises it by one, as the comparison with the
  // previous publication decides; the first one has generation 1.
  ghost predicate History(published: seq<Snapshot>) {
    && (published != [] ==> published[0].metadata.generation == 1)
    && (forall i :: 0 < i < |published| ==> Follows(published[i - 1], published[i]))
  }

  ghost predicate Follows(a: Snapshot, b: Snapshot) {
    b.metadata.generation == a.metadata.generation + if Unchanged(a, b) then 0 else 1
  }

  ghost function Changes(published: seq<Snapshot>): nat {
    if |published| < 2 then 0
    else
      var n := |published| - 1;
      Changes(published[..n]) + if Unchanged(published[n - 1], published[n]) then 0 else 1
  }

  // Generations never decrease and never skip a number.
  lemma {:induction false} GenerationsClimb(published: seq<Snapshot>, i: nat, j: nat)
    requires History(published) && i <= j < |published|
    ensures published[i].metadata.generation <= published[j].metadata.generation <= published[i].metadata.generation + (j - i)
    decreases j
  {
    hide Unchanged;
    if i < j {
      GenerationsClimb(published, i, j - 1);
      assert Follows(published[j - 1], published[j]);
    }
  }

  // The generation counts the recorded changes.
  lemma {:induction false} GenerationCountsChanges(published: seq<Snapshot>)
    requires History(published) && published != []
    ensures published[|published| - 1].metadata.generation == 1 + Changes(published)
    decreases |published|
  {
    hide Unchanged;
    var n := |published| - 1;
    if n > 0 {
      var p := published[..n];
      assert forall i :: 0 < i < |p| ==> Follows(published[i - 1], published[i]);
      GenerationCountsChanges(p);
      assert Follows(published[n - 1], published[n]);
    }
  }

  // Equal generations mean equal structure: whoever saw the generation has seen the fingerprint.
  lemma {:induction false} EqualGenerationsEqualFingerprints(published: seq<Snapshot>, i: nat, j: nat)
    requires History(published) && i <= j < |published|
    requires published[i].metadata.generation == published[j].metadata.generation
    ensures FingerprintOf(published[i]) == FingerprintOf(published[j])
    decreases j
  {
    hide Unchanged, FingerprintOf;
    if i < j {
      GenerationsClimb(published, i, j - 1);
      GenerationsClimb(published, j - 1, j);
      EqualGenerationsEqualFingerprints(published, i, j - 1);
      assert Follows(published[j - 1], published[j]);
      UnchangedExactly(published[j - 1], published[j]);
    }
  }

  // Between neighbours a new generation means a new fingerprint, or parallel edges that disagree.
  lemma NewGenerationNewFingerprint(published: seq<Snapshot>, i: nat)
    requires History(published) && 0 < i < |published|
    ensures published[i].metadata.generation == published[i - 1].metadata.generation <==>
            FingerprintOf(published[i]) == FingerprintOf(published[i - 1]) && ParallelEdgesAgree(published[i].edges)
  {
    hide Unchanged, FingerprintOf, ParallelEdgesAgree;
    assert Follows(published[i - 1], published[i]);
    UnchangedExactly(published[i - 1], published[i]);
  }

  // ---- What one discovery finds -------------------------------------------------------

  ghost predicate DirectedContainment(cs: seq<Contribution>) {
    forall e :: e in FlatEdges(cs) && e.edgeType == Contains ==> e.direction == Directed
  }

  // The graph of a discovery: the merge, the attach pass and the edge bound of the builder.
  ghost predicate DiscoveredGraph(derive: string -> NodeId, cs: seq<Contribution>, bounds: Bounds, s: Snapshot) {
    exists g, machine, edges :: DiscoveredVia(derive, cs, bounds, s, g, machine, edges)
  }

  ghost predicate DiscoveredVia(derive: string -> NodeId, cs: seq<Contribution>, bounds: Bounds, s: Snapshot,
                                g: MergedGraph, machine: NodeId, edges: seq<Edge>)
  {
    && IsMerge(derive, cs, bounds, g) && Attached(g.nodes, g.edges, machine, edges)
    && s.nodes == g.nodes && s.edges == Take(edges, bounds.maxEdges)
  }

  lemma {:induction false} ResolvedKeepDirection(refs: map<string, NodeId>, es: seq<ContributedEdge>)
    requires forall e :: e in es && e.edgeType == Contains ==> e.direction == Directed
    ensures forall e :: e in Resolved(refs, es) && e.edgeType == Contains ==> e.direction == Directed
  {
    if es != [] {
      var n := |es| - 1;
      assert es[n] in es;
      assert forall e :: e in es[..n] ==> e in es;
      ResolvedKeepDirection(refs, es[..n]);
    }
  }

  lemma MergedContainmentIsDirected(derive: string -> NodeId, cs: seq<Contribution>, bounds: Bounds, g: MergedGraph)
    requires IsMerge(derive, cs, bounds, g) && DirectedContainment(cs)
    ensures UniqueKeys(g.edges)
    ensures forall e :: e in g.edges && e.edgeType == Contains ==> e.direction == Directed
  {
    hide TableOf, ByVisitOrder, GroupKey, Dedup, Resolved, KeyOf;
    var order, refs :| MergedAs(derive, cs, bounds, order, refs, g);
    ResolvedKeepDirection(refs, FlatEdges(cs));
    DedupFacts(Take(Resolved(refs, FlatEdges(cs)), bounds.maxEdges));
  }

  lemma TakeKeepsKeysUnique(es: seq<Edge>, n: nat)
    requires UniqueKeys(es)
    ensures UniqueKeys(Take(es, n))
  {
    hide KeyOf;
  }

  // Providers that report containment as directed never make two edges share a key.
  lemma DiscoveredKeysAreUnique(derive: string -> NodeId, cs: seq<Contribution>, bounds: Bounds, s: Snapshot)
    requires DiscoveredGraph(derive, cs, bounds, s) && DirectedContainment(cs)
    ensures UniqueKeys(s.edges)
  {
    hide IsMerge, Attached, UniqueKeys, Take;
    var g, machine, edges :| DiscoveredVia(derive, cs, bounds, s, g, machine, edges);
    MergedContainmentIsDirected(derive, cs, bounds, g);
    AttachKeepsKeysUnique(g.nodes, g.edges, machine, edges);
    TakeKeepsKeysUnique(edges, bounds.maxEdges);
  }

  // ---- Whole runs -------------------------------------------------------------------------

  // A run: what the providers contributed each time, and what was published.
  ghost predicate IsRun(derive: string -> NodeId, bounds: Bounds, inputs: seq<seq<Contribution>>, published: seq<Snapshot>) {
    && |inputs| == |published| && History(published)
    && forall i :: 0 <= i < |inputs| ==> DiscoveredGraph(derive, inputs[i], bounds, published[i])
  }

  // In any run, snapshots of one generation have one structure. Where the providers direct their
  // containment edges, the generation moves between neighbours exactly with the structure.
  lemma GenerationsOfARun(derive: string -> NodeId, bounds: Bounds, inputs: seq<seq<Contribution>>, published: seq<Snapshot>,
                          i: nat, j: nat)
    requires IsRun(derive, bounds, inputs, published) && i < j < |published|
    ensures published[i].metadata.generation == published[j].metadata.generation ==>
              FingerprintOf(published[i]) == FingerprintOf(published[j])
    ensures j == i + 1 && DirectedContainment(inputs[j]) ==>
              (published[i].metadata.generation == published[j].metadata.generation <==>
               FingerprintOf(published[i]) == FingerprintOf(published[j]))
    ensures published[j].metadata.generation == 1 + Changes(published[..j + 1])
  {
    hide History, Changes, DiscoveredGraph, DirectedContainment, UniqueKeys, FingerprintOf, ParallelEdgesAgree;
    if published[i].metadata.generation == published[j].metadata.generation {
      EqualGenerationsEqualFingerprints(published, i, j);
    }
    if j == i + 1 && DirectedContainment(inputs[j]) {
      DiscoveredKeysAreUnique(derive, inputs[j], bounds, published[j]);
      UniqueKeysAgree(published[j].edges);
      NewGenerationNewFingerprint(published, j);
    }
    HistoryPrefix(published, j + 1);
    GenerationCountsChanges(published[..j + 1]);
  }

  lemma HistoryPrefix(published: seq<Snapshot>, n: nat)
    requires History(published) && n <= |published|
    ensures History(published[..n])
  {
    hide Follows;
    assert forall i :: 0 < i < n ==> Follows(published[i - 1], published[i]);
  }

  // ---- The runtime -----------------------------------------------------------------------

  function VersionsText(cs: seq<Contribution>): string {
    if cs == [] then ""
    else
      var c := cs[|cs| - 1];
      VersionsText(cs[..|cs| - 1]) + (if |cs| > 1 && VersionsText(cs[..|cs| - 1]) != "" then ";" else "") +
      c.provider + "=" + c.version
  }

  // The parts of the metadata that do not come from the graph: clock, random suffixes and
  // whether some provider was partial.
  datatype Circumstances = Circumstances(nowMs: int64, uuid1: string, uuid2: string, partialDiscovery: bool)

  class TopologyRuntime {
    const bounds: Bounds
    const derive: string -> NodeId
    var current: Option<Snapshot>
    var snapshotCounter: nat
    var generationChanges: nat
    ghost var inputs: seq<seq<Contribution>>
    ghost var published: seq<Snapshot>

    // What was published is a run, the current snapshot is its last one, and the change
    // counter follows it.
    ghost predicate Valid()
      reads this
    {
      && IsRun(derive, bounds, inputs, published)
      && (current.None? <==> published == [])
      && (current.Some? ==> current.value == published[|published| - 1])
      && generationChanges == Changes(published)
    }

    constructor (bounds: Bounds, derive: string -> NodeId)
      ensures Valid() && this.bounds == bounds && this.derive == derive && published == []
    {
      this.bounds, this.derive := bounds, derive;
      current, snapshotCounter, generationChanges, inputs, published := None, 0, 0, [], [];
    }

    // Zero before the first discovery.
    function Generation(): nat
      reads this
    {
      if current.Some? then current.value.metadata.generation else 0
    }

    // Fills a fresh builder and takes its snapshot.
    method BuildSnapshot(nodes: map<NodeId, Node>, edges: seq<Edge>, generation: nat, identity: string,
                         versions: string, uuid: string, at: Circumstances)
      returns (s: Snapshot)
      requires |nodes| <= bounds.maxNodes && forall id :: id in nodes ==> nodes[id].id == id
      modifies this`snapshotCounter
      ensures snapshotCounter == old(snapshotCounter) + 1
      ensures s.nodes == nodes && s.edges == Take(edges, bounds.maxEdges) && s.Indexed()
      ensures s.metadata == Metadata("snap-" + Numeral(10, snapshotCounter) + "-" + uuid, generation, at.nowMs, identity,
                                     "1.0", versions, at.partialDiscovery, false, [])
      ensures s.validation.ok <==> WellFormedGraph(s.nodes, s.edges)
    {
      var b := new SnapshotBuilder(bounds);
      snapshotCounter := snapshotCounter + 1;
      FillNodes(b, nodes);
      FillEdges(b, edges);
      b.SetMetadata(Metadata("snap-" + Numeral(10, snapshotCounter) + "-" + uuid, generation, at.nowMs, identity,
                             "1.0", versions, at.partialDiscovery, false, []));
      var taken := b.Take();
      s := taken.value;
    }

    // Compares a provisional snapshot with the current one: a material change raises the
    // generation and is recorded.
    method NextGeneration(nodes: map<NodeId, Node>, edges: seq<Edge>, identity: string, versions: string, at: Circumstances)
      returns (generation: nat, ghost provisional: Snapshot)
      requires current.Some?
      requires |nodes| <= bounds.maxNodes && forall id :: id in nodes ==> nodes[id].id == id
      modifies this`snapshotCounter, this`generationChanges
      ensures snapshotCounter == old(snapshotCounter) + 1
      ensures provisional.nodes == nodes && provisional.edges == Take(edges, bounds.maxEdges)
      ensures generation == current.value.metadata.generation + (if Unchanged(current.value, provisional) then 0 else 1)
      ensures generationChanges == old(generationChanges) + (if Unchanged(current.value, provisional) then 0 else 1)
    {
      hide Unchanged, WellFormedGraph, Take;
      var s := BuildSnapshot(nodes, edges, current.value.metadata.generation, identity, versions, at.uuid1, at);
      var d := CompareSnapshots(current.value, s);
      generation := current.value.metadata.generation;
      if d.materialChange {
        generation := generation + 1;
        generationChanges := generationChanges + 1;
      }
      provisional := s;
    }

    // One discovery. Providers are abstracted to the contributions they return.
    method Discover(cs: seq<Contribution>, at: Circumstances) returns (s: Snapshot)
      requires Valid()
      modifies this
      ensures Valid()
      ensures current == Some(s) && published == old(published) + [s] && inputs == old(inputs) + [cs]
      ensures DiscoveredGraph(derive, cs, bounds, s) && s.Indexed()
      ensures s.validation.ok <==> WellFormedGraph(s.nodes, s.edges)
      ensures old(current).None? ==> s.metadata.generation == 1 && generationChanges == old(generationChanges)
      ensures old(current).Some? ==>
                && s.metadata.generation == old(current).value.metadata.generation + (if Unchanged(old(current).value, s) then 0 else 1)
                && generationChanges == old(generationChanges) + (if Unchanged(old(current).value, s) then 0 else 1)
      ensures snapshotCounter == old(snapshotCounter) + if old(current).Some? then 2 else 1
      ensures NamesMachine(s.nodes, s.metadata.machineIdentity)
      ensures s.metadata == Metadata("snap-" + Numeral(10, snapshotCounter) + "-" + at.uuid2, s.metadata.generation, at.nowMs,
                                     s.metadata.machineIdentity, "1.0", VersionsText(cs), at.partialDiscovery, false, [])
    {
      hide IsMerge, Attached, Unchanged, WellFormedGraph, IsRun, Changes, Take, DiscoveredGraph, NamesMachine, Numeral, VersionsText;
      var g := MergeContributions(derive, cs, bounds);
      var machine, edges := AttachResources(g.nodes, g.edges);
      MergedNodesFit(derive, cs, bounds, g);
      var identity := MachineIdentity(g.nodes);
      var versions := ProviderVersions(cs);
      var generation: nat := 1;
      ghost var before, contributed := published, inputs;
      if current.Some? {
        ghost var provisional;
        generation, provisional := NextGeneration(g.nodes, edges, identity, versions, at);
        s := BuildSnapshot(g.nodes, edges, generation, identity, versions, at.uuid2, at);
        SameGraphSameVerdict(current.value, provisional, s);
      } else {
        s := BuildSnapshot(g.nodes, edges, generation, identity, versions, at.uuid2, at);
      }
      DiscoveredAs(derive, cs, bounds, s, g, machine, edges);
      ExtendRun(derive, bounds, contributed, before, cs, s);
      inputs, published := inputs + [cs], published + [s];
      current := Some(s);
    }
  }

  lemma DiscoveredAs(derive: string -> NodeId, cs: seq<Contribution>, bounds: Bounds, s: Snapshot,
                     g: MergedGraph, machine: NodeId, edges: seq<Edge>)
    requires DiscoveredVia(derive, cs, bounds, s, g, machine, edges)
    ensures DiscoveredGraph(derive, cs, bounds, s)
  {
  }

  // Materiality looks at nodes and edges only.
  lemma SameGraphSameVerdict(a: Snapshot, b: Snapshot, c: Snapshot)
    requires b.nodes == c.nodes && b.edges == c.edges
    ensures Unchanged(a, b) <==> Unchanged(a, c)
  {
  }

  lemma ExtendRun(derive: string -> NodeId, bounds: Bounds, inputs: seq<seq<Contribution>>, published: seq<Snapshot>,
                  cs: seq<Contribution>, s: Snapshot)
    requires IsRun(derive, bounds, inputs, published) && DiscoveredGraph(derive, cs, bounds, s)
    requires published == [] ==> s.metadata.generation == 1
    requires published != [] ==> Follows(published[|published| - 1], s)
    ensures IsRun(derive, bounds, inputs + [cs], published + [s])
    ensures Changes(published + [s]) ==
            Changes(published) + if published == [] || Unchanged(published[|published| - 1], s) then 0 else 1
  {
    hide Unchanged, Follows, Changes, History, DiscoveredGraph;
    ExtendHistory(published, s);
  }

  lemma ExtendHistory(published: seq<Snapshot>, s: Snapshot)
    requires History(published)
    requires published == [] ==> s.metadata.generation == 1
    requires published != [] ==> Follows(published[|published| - 1], s)
    ensures History(published + [s])
    ensures Changes(published + [s]) ==
            Changes(published) + if published == [] || Unchanged(published[|published| - 1], s) then 0 else 1
  {
    hide Unchanged, Follows, Changes;
    var next := published + [s];
    forall i | 0 < i < |next|
      ensures Follows(next[i - 1], next[i])
    {
      if i < |published| {
        assert Follows(published[i - 1], published[i]);
      }
    }
    ChangesOfExtension(published, s);
  }

  lemma ChangesOfExtension(published: seq<Snapshot>, s: Snapshot)
    ensures Changes(published + [s]) ==
            Changes(published) + if published == [] || Unchanged(published[|published| - 1], s) then 0 else 1
  {
    hide Unchanged;
    assert (published + [s])[..|published|] == published;
  }

  lemma MergedNodesFit(derive: string -> NodeId, cs: seq<Contribution>, bounds: Bounds, g: MergedGraph)
    requires IsMerge(derive, cs, bounds, g)
    ensures |g.nodes| <= bounds.maxNodes && forall id :: id in g.nodes ==> g.nodes[id].id == id
  {
    hide TableOf, ByVisitOrder, GroupKey, Dedup, Resolved, Best;
    var order, refs :| MergedAs(derive, cs, bounds, order, refs, g);
    var ms := Ingested(cs, bounds.maxNodes);
    OrderIsDistinct(KeysOf(ms), order);
    TableFacts(derive, ms, order, bounds.maxNodes);
    forall id | id in g.nodes
      ensures g.nodes[id].id == id
    {
      assert HasGroup(ms, TableOf(derive, ms, order, bounds.maxNodes), id);
    }
  }

  method FillNodes(b: SnapshotBuilder, nodes: map<NodeId, Node>)
    requires b.Valid() && !b.taken && b.nodes == map[] && |nodes| <= b.bounds.maxNodes
    requires forall id :: id in nodes ==> nodes[id].id == id
    modifies b`nodes
    ensures b.Valid() && b.nodes == nodes
  {
    var left := nodes.Keys;
    while left != {}
      invariant b.Valid() && Moved(nodes, left, b.nodes)
      decreases left
    {
      var id :| id in left;
      MoveOne(nodes, left, b.nodes, id);
      var added := b.AddNode(nodes[id]);
      left := left - {id};
    }
  }

  // Everything but the ids still left has been copied.
  ghost predicate Moved(nodes: map<NodeId, Node>, left: set<NodeId>, done: map<NodeId, Node>) {
    && left <= nodes.Keys
    && (forall id :: id in done <==> id in nodes && id !in left)
    && (forall id :: id in done ==> done[id] == nodes[id])
  }

  lemma ProperSubsetIsSmaller(part: set<NodeId>, whole: set<NodeId>, extra: NodeId)
    requires part <= whole && extra in whole && extra !in part
    ensures |part| < |whole|
  {
    assert |whole| == |part| + |whole - part|;
  }

  lemma MoveOne(nodes: map<NodeId, Node>, left: set<NodeId>, done: map<NodeId, Node>, id: NodeId)
    requires Moved(nodes, left, done) && id in left
    ensures |done| < |nodes| && id !in done
    ensures Moved(nodes, left - {id}, done[id := nodes[id]])
  {
    ProperSubsetIsSmaller(done.Keys, nodes.Keys, id);
  }

  method FillEdges(b: SnapshotBuilder, edges: seq<Edge>)
    requires b.Valid() && !b.taken && b.edges == []
    modifies b`edges
    ensures b.Valid() && b.edges == Take(edges, b.bounds.maxEdges)
  {
    for i := 0 to |edges|
      invariant b.Valid() && b.edges == Take(edges[..i], b.bounds.maxEdges)
    {
      assert edges[..i + 1] == edges[..i] + [edges[i]];
      var added := b.AddEdge(edges[i]);
    }
    assert edges[..|edges|] == edges;
  }

  // The name of some machine node; without a machine, or without a name, it is unknown.
  ghost predicate NamesMachine(nodes: map<NodeId, Node>, name: string) {
    if forall id :: !Machines(nodes, id) then name == "unknown-machine"
    else exists id :: Machines(nodes, id) && name == if nodes[id].name == "" then "unknown-machine" else nodes[id].name
  }

  method MachineIdentity(nodes: map<NodeId, Node>) returns (name: string)
    ensures NamesMachine(nodes, name)
  {
    name := "";
    var left := nodes.Keys;
    while left != {}
      invariant left <= nodes.Keys && name == ""
      invariant forall id :: Machines(nodes, id) ==> id in left
      decreases left
    {
      var id :| id in left;
      left := left - {id};
      if nodes[id].nodeType == Machine {
        name := nodes[id].name;
        assert Machines(nodes, id);
        break;
      }
    }
    if name == "" {
      name := "unknown-machine";
    }
  }

  method ProviderVersions(cs: seq<Contribution>) returns (text: string)
    ensures text == VersionsText(cs)
  {
    text := "";
    for i := 0 to |cs|
      invariant text == VersionsText(cs[..i])
    {
      assert cs[..i + 1][..i] == cs[..i];
      if text != "" {
        text := text + ";";
      }
      text := text + cs[i].provider + "=" + cs[i].version;
    }
    assert cs[..|cs|] == cs;
  }
}
