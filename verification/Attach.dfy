// The machine-attach pass of a discovery.

module Attach {
  import opened Types
  import opened Walks
  import opened Hierarchy
  import opened Containment
  import opened MergeGraph

  predicate IsResource(t: NodeType) {
    t == Accelerator || t == StorageDevice || t == NetworkInterface || t == PciRoot || t == PciDevice
  }

  predicate ParentEdge(e: Edge) {
    e.edgeType == Contains || e.edgeType == AttachedTo
  }

  ghost predicate HasParent(edges: seq<Edge>, id: NodeId) {
    exists e :: e in edges && ParentEdge(e) && e.target == id
  }

  function AttachEdge(machine: NodeId, id: NodeId): Edge {
    Edge(machine, id, Contains, Directed,
         Provenance(Inferred, Medium, "merge", "machine attach", "resource placed under machine", 0, "1.0", ""),
         Medium, None, None, None, None, 0, None, true, None, 0, map[])
  }

  ghost predicate NeedsMachine(nodes: map<NodeId, Node>, edges: seq<Edge>, machine: NodeId, id: NodeId) {
    id in nodes && id != machine && IsResource(nodes[id].nodeType) && !HasParent(edges, id)
  }

  ghost predicate Machines(nodes: map<NodeId, Node>, id: NodeId) {
    id in nodes && nodes[id].nodeType == Machine
  }

  // One new edge for every resource that needs the machine, and none besides.
  ghost predicate AttachmentsOk(nodes: map<NodeId, Node>, edges: seq<Edge>, machine: NodeId, added: seq<Edge>) {
    && NoRepeats(added)
    && forall e :: e in added <==> NeedsMachine(nodes, edges, machine, e.target) && e == AttachEdge(machine, e.target)
  }

  ghost predicate Attached(nodes: map<NodeId, Node>, before: seq<Edge>, machine: NodeId, after: seq<Edge>) {
    && |before| <= |after| && after[..|before|] == before
    && if machine == NULL_NODE_ID then after == before
       else Machines(nodes, machine) && AttachmentsOk(nodes, before, machine, after[|before|..])
  }

  method FindMachine(nodes: map<NodeId, Node>) returns (machine: NodeId)
    ensures machine != NULL_NODE_ID ==> Machines(nodes, machine)
    ensures machine == NULL_NODE_ID ==> forall id :: Machines(nodes, id) ==> Machines(nodes, NULL_NODE_ID)
  {
    machine := NULL_NODE_ID;
    var left := nodes.Keys;
    while left != {}
      invariant left <= nodes.Keys
      invariant forall id :: id in nodes && id !in left ==> nodes[id].nodeType != Machine
      decreases left
    {
      var id :| id in left;
      left := left - {id};
      if nodes[id].nodeType == Machine {
        return id;
      }
    }
  }

  method CollectParents(edges: seq<Edge>) returns (hasParent: set<NodeId>)
    ensures forall id :: id in hasParent <==> HasParent(edges, id)
  {
    hasParent := {};
    for i := 0 to |edges|
      invariant forall id :: id in hasParent <==> exists j :: 0 <= j < i && ParentEdge(edges[j]) && edges[j].target == id
    {
      if ParentEdge(edges[i]) {
        hasParent := hasParent + {edges[i].target};
      }
    }
  }

  // Visits machines and resources in any order.
  method AttachResources(nodes: map<NodeId, Node>, edges: seq<Edge>) returns (machine: NodeId, after: seq<Edge>)
    ensures Attached(nodes, edges, machine, after)
    ensures machine == NULL_NODE_ID ==> forall id :: Machines(nodes, id) ==> Machines(nodes, NULL_NODE_ID)
  {
    hide HasParent, AttachEdge;
    machine := FindMachine(nodes);
    after := edges;
    if machine == NULL_NODE_ID {
      return;
    }
    var hasParent := CollectParents(edges);
    var added: seq<Edge> := [];
    var left := nodes.Keys;
    while left != {}
      invariant left <= nodes.Keys && NoRepeats(added)
      invariant forall e :: e in added <==>
                            e.target !in left && NeedsMachine(nodes, edges, machine, e.target) && e == AttachEdge(machine, e.target)
      decreases left
    {
      var id :| id in left;
      left := left - {id};
      AttachTarget(machine, id);
      if id != machine && IsResource(nodes[id].nodeType) && id !in hasParent {
        added := added + [AttachEdge(machine, id)];
      }
    }
    after := edges + added;
    assert after[|edges|..] == added;
  }

  lemma AttachTarget(machine: NodeId, id: NodeId)
    ensures AttachEdge(machine, id).target == id
  {
  }

  // ---- What the pass guarantees ---------------------------------------------------------

  // With a machine to hang them on, no resource is left without a parent.
  lemma ResourcesHaveParents(nodes: map<NodeId, Node>, before: seq<Edge>, machine: NodeId, after: seq<Edge>, id: NodeId)
    requires Attached(nodes, before, machine, after) && machine != NULL_NODE_ID
    requires id in nodes && IsResource(nodes[id].nodeType)
    ensures HasParent(after, id)
  {
    assert forall e :: e in before ==> e in after;
    if !HasParent(before, id) {
      var e := AttachEdge(machine, id);
      assert NeedsMachine(nodes, before, machine, e.target);
      assert e in after[|before|..];
      assert e in after;
    }
  }

  // An edge that places its target somewhere.
  predicate Places(e: Edge, id: NodeId) {
    e.target == id && e.edgeType in {Contains, AttachedTo}
  }

  // Devices of these five types, other than the machine itself, are placed by some edge.
  lemma DevicesArePlaced(nodes: map<NodeId, Node>, before: seq<Edge>, machine: NodeId, after: seq<Edge>, id: NodeId)
    requires Attached(nodes, before, machine, after) && machine != NULL_NODE_ID && id in nodes && id != machine
    requires nodes[id].nodeType in {Accelerator, StorageDevice, NetworkInterface, PciRoot, PciDevice}
    ensures exists e :: e in after && Places(e, id)
  {
    hide Attached;
    ResourcesHaveParents(nodes, before, machine, after, id);
  }

  // No other node gets an edge, nor one that had a place: a new edge leads from the machine to a
  // device of these types that no edge placed before, and says no more than that.
  lemma NewEdgesPlaceDevices(nodes: map<NodeId, Node>, before: seq<Edge>, machine: NodeId, after: seq<Edge>, i: nat)
    requires Attached(nodes, before, machine, after) && |before| <= i < |after|
    ensures machine in nodes && nodes[machine].nodeType == Machine
    ensures var e := after[i];
            && e.source == machine && e.edgeType == Contains && e.direction == Directed && e.confidence == Medium
            && e.provenance.kind == Inferred && e.bandwidth == None && e.latency == None && e.width == None && e.accessible
            && e.target in nodes && e.target != machine
            && nodes[e.target].nodeType in {Accelerator, StorageDevice, NetworkInterface, PciRoot, PciDevice}
            && (forall o :: o in before ==> !Places(o, e.target))
            && (forall j :: |before| <= j < |after| && j != i ==> after[j].target != e.target)
  {
    var added := after[|before|..];
    assert after[i] == added[i - |before|] && added[i - |before|] in added;
    forall j | |before| <= j < |after| && j != i
      ensures after[j].target != after[i].target
    {
      assert after[j] == added[j - |before|] && added[j - |before|] in added;
    }
  }

  // Directed CONTAINS edges keep every edge key unique.
  lemma AttachKeepsKeysUnique(nodes: map<NodeId, Node>, before: seq<Edge>, machine: NodeId, after: seq<Edge>)
    requires Attached(nodes, before, machine, after) && UniqueKeys(before)
    requires forall e :: e in before && e.edgeType == Contains ==> e.direction == Directed
    ensures UniqueKeys(after)
  {
    var added := after[|before|..];
    assert after == before + added;
    if machine != NULL_NODE_ID {
      forall i, j | 0 <= i < j < |after|
        ensures KeyOf(after[i]) != KeyOf(after[j])
      {
        if j < |before| {
          assert after[i] == before[i] && after[j] == before[j];
        } else {
          NewKeyDiffers(nodes, before, machine, added, after, i, j);
        }
      }
    }
  }

  lemma NewKeyDiffers(nodes: map<NodeId, Node>, before: seq<Edge>, machine: NodeId, added: seq<Edge>, after: seq<Edge>, i: nat, j: nat)
    requires AttachmentsOk(nodes, before, machine, added) && after == before + added
    requires forall e :: e in before && e.edgeType == Contains ==> e.direction == Directed
    requires i < j < |after| && |before| <= j
    ensures KeyOf(after[i]) != KeyOf(after[j])
  {
    assert after[j] == added[j - |before|] && after[j] in added;
    if i < |before| {
      assert after[i] in before;
      assert !HasParent(before, after[j].target);
    } else {
      assert after[i] == added[i - |before|] && after[i] in added;
    }
  }

  // ---- Cycles ------------------------------------------------------------------------------

  ghost predicate AtOrAbove(edges: seq<Edge>, a: NodeId, b: NodeId) {
    a == b || Above(edges, Contains, a, b)
  }

  lemma AtOrAboveStep(edges: seq<Edge>, a: NodeId, b: NodeId, c: NodeId)
    requires AtOrAbove(edges, a, b) && Linked(edges, Contains, b, c)
    ensures Above(edges, Contains, a, c)
  {
    LinkIsAbove(edges, Contains, b, c);
    if a != b {
      AboveIsTransitive(edges, Contains, a, b, c);
    }
  }

  lemma AtOrAboveJoin(edges: seq<Edge>, a: NodeId, b: NodeId, c: NodeId)
    requires AtOrAbove(edges, a, b) && AtOrAbove(edges, b, c)
    ensures AtOrAbove(edges, a, c)
  {
    if a != b && b != c {
      AboveIsTransitive(edges, Contains, a, b, c);
    }
  }

  lemma MoreEdgesMoreAbove(before: seq<Edge>, after: seq<Edge>, a: NodeId, b: NodeId)
    requires |before| <= |after| && after[..|before|] == before && Above(before, Contains, a, b)
    ensures Above(after, Contains, a, b)
  {
    var w :| w != [] && IsWalk(TypedNetwork(before, Contains), a, b, w);
    WalkSurvives(before, after, a, b, w);
  }

  lemma {:induction false} WalkSurvives(before: seq<Edge>, after: seq<Edge>, a: NodeId, b: NodeId, w: seq<Step>)
    requires |before| <= |after| && after[..|before|] == before
    requires IsWalk(TypedNetwork(before, Contains), a, b, w)
    ensures IsWalk(TypedNetwork(after, Contains), a, b, w)
    decreases |w|
  {
    if w != [] {
      var last := w[|w| - 1];
      WalkSurvives(before, after, a, last.from, w[..|w| - 1]);
      TypedNetworkMembers(before, Contains, last);
      TypedNetworkMembers(after, Contains, last);
    }
  }

  ghost predicate NewChild(nodes: map<NodeId, Node>, before: seq<Edge>, machine: NodeId, id: NodeId) {
    machine != NULL_NODE_ID && NeedsMachine(nodes, before, machine, id)
  }

  // A walk over the new edges reduces to: old edges only, or old edges up to the machine and
  // old edges on from one of its new children.
  lemma {:induction false} WalkPassesMachine(nodes: map<NodeId, Node>, before: seq<Edge>, machine: NodeId, after: seq<Edge>,
                                             a: NodeId, b: NodeId, w: seq<Step>)
    requires Attached(nodes, before, machine, after)
    requires w != [] && IsWalk(TypedNetwork(after, Contains), a, b, w)
    ensures Above(before, Contains, a, b) ||
            (AtOrAbove(before, a, machine) && exists id :: NewChild(nodes, before, machine, id) && AtOrAbove(before, id, b))
    decreases |w|
  {
    hide Above, NeedsMachine, AttachEdge, IsWalk;
    var last := w[|w| - 1];
    LastLink(after, a, b, w);
    var x := last.from;
    if |w| > 1 {
      WalkPassesMachine(nodes, before, machine, after, a, x, w[..|w| - 1]);
    }
    OldOrNewLink(nodes, before, machine, after, x, b);
    if Linked(before, Contains, x, b) {
      if AtOrAbove(before, a, x) {
        AtOrAboveStep(before, a, x, b);
      } else {
        var id :| NewChild(nodes, before, machine, id) && AtOrAbove(before, id, x);
        AtOrAboveStep(before, id, x, b);
        assert AtOrAbove(before, id, b);
      }
    } else {
      assert AtOrAbove(before, b, b);
    }
  }

  lemma LastLink(edges: seq<Edge>, a: NodeId, b: NodeId, w: seq<Step>)
    requires w != [] && IsWalk(TypedNetwork(edges, Contains), a, b, w)
    ensures Linked(edges, Contains, w[|w| - 1].from, b)
    ensures |w| == 1 ==> w[0].from == a
    ensures |w| > 1 ==> w[..|w| - 1] != [] && IsWalk(TypedNetwork(edges, Contains), a, w[|w| - 1].from, w[..|w| - 1])
  {
    var last := w[|w| - 1];
    LinkIsStep(edges, Contains, last.from, b);
    assert last == Step(last.from, b, last.edge);
  }

  lemma OldOrNewLink(nodes: map<NodeId, Node>, before: seq<Edge>, machine: NodeId, after: seq<Edge>, x: NodeId, y: NodeId)
    requires Attached(nodes, before, machine, after) && Linked(after, Contains, x, y)
    ensures Linked(before, Contains, x, y) || (x == machine && NewChild(nodes, before, machine, y))
  {
    var e :| e in after && e.edgeType == Contains && e.source == x && e.target == y;
    assert after == before + after[|before|..];
    if e !in before {
      assert e in after[|before|..];
    }
  }

  // The pass creates a cycle exactly when it hangs under the machine a resource that already
  // lies above it. In particular it never does when nothing contains the machine.
  lemma AttachCyclesOnlyThroughMachine(nodes: map<NodeId, Node>, before: seq<Edge>, machine: NodeId, after: seq<Edge>)
    requires Attached(nodes, before, machine, after)
    ensures HasCycle(after) <==>
            HasCycle(before) || exists id :: NewChild(nodes, before, machine, id) && Above(before, Contains, id, machine)
  {
    hide Above, NeedsMachine;
    if x :| Above(before, Contains, x, x) {
      MoreEdgesMoreAbove(before, after, x, x);
    }
    forall id | NewChild(nodes, before, machine, id) && Above(before, Contains, id, machine)
      ensures HasCycle(after)
    {
      NewChildLink(nodes, before, machine, after, id);
      LinkIsAbove(after, Contains, machine, id);
      MoreEdgesMoreAbove(before, after, id, machine);
      AboveIsTransitive(after, Contains, machine, id, machine);
    }
    forall x | Above(after, Contains, x, x)
      ensures HasCycle(before) || exists id :: NewChild(nodes, before, machine, id) && Above(before, Contains, id, machine)
    {
      CycleReduces(nodes, before, machine, after, x);
    }
  }

  lemma NewChildLink(nodes: map<NodeId, Node>, before: seq<Edge>, machine: NodeId, after: seq<Edge>, id: NodeId)
    requires Attached(nodes, before, machine, after) && NewChild(nodes, before, machine, id)
    ensures Linked(after, Contains, machine, id)
  {
    var e := AttachEdge(machine, id);
    assert e in after[|before|..];
    assert e in after;
  }

  lemma CycleReduces(nodes: map<NodeId, Node>, before: seq<Edge>, machine: NodeId, after: seq<Edge>, x: NodeId)
    requires Attached(nodes, before, machine, after) && Above(after, Contains, x, x)
    ensures HasCycle(before) || exists id :: NewChild(nodes, before, machine, id) && Above(before, Contains, id, machine)
  {
    var w :| w != [] && IsWalk(TypedNetwork(after, Contains), x, x, w);
    WalkPassesMachine(nodes, before, machine, after, x, x, w);
    if !Above(before, Contains, x, x) {
      var id :| NewChild(nodes, before, machine, id) && AtOrAbove(before, id, x);
      AtOrAboveJoin(before, id, x, machine);
      assert Above(before, Contains, id, machine);
    }
  }

  lemma UncontainedMachineIsSafe(nodes: map<NodeId, Node>, before: seq<Edge>, machine: NodeId, after: seq<Edge>)
    requires Attached(nodes, before, machine, after)
    requires !HasCycle(before) && forall u :: !Linked(before, Contains, u, machine)
    ensures !HasCycle(after)
  {
    AttachCyclesOnlyThroughMachine(nodes, before, machine, after);
    forall id | Above(before, Contains, id, machine)
      ensures false
    {
      var w :| w != [] && IsWalk(TypedNetwork(before, Contains), id, machine, w);
      LastLink(before, id, machine, w);
    }
  }

  // A PCI root reported to contain the machine: the pass hangs it under the machine and closes
  // the cycle.
  lemma AttachCanCloseACycle(nodes: map<NodeId, Node>, before: seq<Edge>, machine: NodeId, root: NodeId, e: Edge)
    requires nodes.Keys == {machine, root} && nodes[machine].nodeType == Machine && nodes[root].nodeType == PciRoot
    requires machine != NULL_NODE_ID && before == [e] && e.edgeType == Contains && e.source == root && e.target == machine
    ensures Attached(nodes, before, machine, before + [AttachEdge(machine, root)])
    ensures !HasCycle(before) && HasCycle(before + [AttachEdge(machine, root)])
  {
    hide Above;
    var added: seq<Edge> := [AttachEdge(machine, root)];
    var after := before + added;
    assert after[..1] == before && after[1..] == added;
    assert forall x :: NeedsMachine(nodes, before, machine, x) <==> x == root;
    forall x | Above(before, Contains, x, x)
      ensures false
    {
      OneEdgeIsNoCycle(before, e, x);
    }
    assert e in before;
    LinkIsAbove(before, Contains, root, machine);
    assert NewChild(nodes, before, machine, root);
    AttachCyclesOnlyThroughMachine(nodes, before, machine, after);
  }

  lemma OneEdgeIsNoCycle(before: seq<Edge>, e: Edge, x: NodeId)
    requires before == [e] && e.source != e.target
    ensures !Above(before, Contains, x, x)
  {
    if Above(before, Contains, x, x) {
      var w: seq<Step> :| w != [] && IsWalk(TypedNetwork(before, Contains), x, x, w);
      LastLink(before, x, x, w);
    }
  }
}
