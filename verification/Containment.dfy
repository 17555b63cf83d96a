// has_cycle: Kahn's algorithm over the CONTAINS multigraph.

module Containment {
  import opened Types
  import opened Walks
  import opened Hierarchy

  // Some node contains itself, directly or through others.
  ghost predicate HasCycle(edges: seq<Edge>) {
    exists x :: Above(edges, Contains, x, x)
  }

  // ---- In-degrees -------------------------------------------------------------

  // CONTAINS edges into v whose source lies in S, parallel edges counted separately.
  ghost function InDegree(edges: seq<Edge>, S: set<NodeId>, v: NodeId): nat {
    if edges == [] then 0
    else
      var e := edges[|edges| - 1];
      InDegree(edges[..|edges| - 1], S, v) +
      if e.edgeType == Contains && e.source in S && e.target == v then 1 else 0
  }

  ghost function Times(s: seq<NodeId>, v: NodeId): nat {
    multiset(s)[v]
  }

  lemma {:induction false} InDegreeGrows(edges: seq<Edge>, S: set<NodeId>, u: NodeId, v: NodeId)
    requires u !in S
    ensures InDegree(edges, S + {u}, v) == InDegree(edges, S, v) + Times(ChildrenOf(edges, u, Contains), v)
  {
    if edges != [] {
      InDegreeGrows(edges[..|edges| - 1], S, u, v);
    }
  }

  lemma {:induction false} InDegreeZero(edges: seq<Edge>, S: set<NodeId>, v: NodeId)
    ensures InDegree(edges, S, v) == 0 <==> forall u :: Linked(edges, Contains, u, v) ==> u !in S
  {
    if edges != [] {
      var n := |edges| - 1;
      var e := edges[n];
      InDegreeZero(edges[..n], S, v);
      assert edges == edges[..n] + [e];
      assert forall u :: Linked(edges, Contains, u, v) <==>
                         Linked(edges[..n], Contains, u, v) || (e.edgeType == Contains && e.source == u && e.target == v);
    }
  }

  // ---- The adjacency map and the in-degree map ----------------------------------

  method GroupChildren(edges: seq<Edge>) returns (childOf: map<NodeId, seq<NodeId>>)
    ensures forall u :: u in childOf <==> ChildrenOf(edges, u, Contains) != []
    ensures forall u :: u in childOf ==> childOf[u] == ChildrenOf(edges, u, Contains)
  {
    hide ChildrenOf;
    childOf := map[];
    NoChildren();
    for i := 0 to |edges|
      invariant forall u :: u in childOf <==> ChildrenOf(edges[..i], u, Contains) != []
      invariant forall u :: u in childOf ==> childOf[u] == ChildrenOf(edges[..i], u, Contains)
    {
      var e := edges[i];
      NextChildren(edges, i);
      if e.edgeType == Contains {
        var kids := if e.source in childOf then childOf[e.source] else [];
        childOf := childOf[e.source := kids + [e.target]];
      }
    }
    assert edges[..|edges|] == edges;
  }

  lemma NoChildren()
    ensures forall u :: ChildrenOf([], u, Contains) == []
  {
  }

  lemma NextChildren(edges: seq<Edge>, i: nat)
    requires i < |edges|
    ensures forall u :: ChildrenOf(edges[..i + 1], u, Contains) ==
                        ChildrenOf(edges[..i], u, Contains) +
                        if edges[i].edgeType == Contains && edges[i].source == u then [edges[i].target] else []
  {
    assert edges[..i + 1][..i] == edges[..i];
  }

  ghost function DegreeAt(indeg: map<NodeId, int>, v: NodeId): int {
    if v in indeg then indeg[v] else 0
  }

  // Adds one for every occurrence in kids.
  method CountKids(indeg: map<NodeId, int>, kids: seq<NodeId>) returns (r: map<NodeId, int>)
    ensures r.Keys == indeg.Keys + Members(kids)
    ensures forall v :: DegreeAt(r, v) == DegreeAt(indeg, v) + Times(kids, v)
  {
    r := indeg;
    for i := 0 to |kids|
      invariant r.Keys == indeg.Keys + Members(kids[..i])
      invariant forall v :: DegreeAt(r, v) == DegreeAt(indeg, v) + Times(kids[..i], v)
    {
      var kid := kids[i];
      assert kids[..i + 1] == kids[..i] + [kid];
      assert Members(kids[..i + 1]) == Members(kids[..i]) + {kid};
      r := r[kid := (if kid in r then r[kid] else 0) + 1];
    }
    assert kids[..|kids|] == kids;
  }

  ghost function Endpoints(edges: seq<Edge>): set<NodeId> {
    (set e | e in edges && e.edgeType == Contains :: e.source) + (set e | e in edges && e.edgeType == Contains :: e.target)
  }

  // Visits the sources in any order, as the hash map does.
  method CountDegrees(edges: seq<Edge>, childOf: map<NodeId, seq<NodeId>>) returns (indeg: map<NodeId, int>)
    requires forall u :: u in childOf <==> ChildrenOf(edges, u, Contains) != []
    requires forall u :: u in childOf ==> childOf[u] == ChildrenOf(edges, u, Contains)
    ensures indeg.Keys == Endpoints(edges)
    ensures forall v :: v in indeg ==> indeg[v] == InDegree(edges, indeg.Keys, v)
  {
    hide ChildrenOf, InDegree, Linked;
    indeg := map u | u in childOf :: 0;
    var left := childOf.Keys;
    ghost var seen: set<NodeId> := {};
    forall v
      ensures InDegree(edges, {}, v) == 0
    {
      InDegreeZero(edges, {}, v);
    }
    while left != {}
      invariant left !! seen && left + seen == childOf.Keys
      invariant childOf.Keys <= indeg.Keys
      invariant forall v :: v in indeg <==> v in childOf || InDegree(edges, seen, v) > 0
      invariant forall v :: DegreeAt(indeg, v) == InDegree(edges, seen, v)
      decreases left
    {
      var u :| u in left;
      left := left - {u};
      forall v
        ensures InDegree(edges, seen + {u}, v) == InDegree(edges, seen, v) + Times(childOf[u], v)
        ensures v in childOf[u] <==> Times(childOf[u], v) > 0
      {
        InDegreeGrows(edges, seen, u, v);
      }
      indeg := CountKids(indeg, childOf[u]);
      seen := seen + {u};
    }
    KeysAreEndpoints(edges, childOf.Keys, indeg.Keys);
    forall v | v in indeg
      ensures indeg[v] == InDegree(edges, indeg.Keys, v)
    {
      InDegreeOfSources(edges, childOf.Keys, indeg.Keys, v);
    }
  }

  lemma KeysAreEndpoints(edges: seq<Edge>, sources: set<NodeId>, keys: set<NodeId>)
    requires forall u :: u in sources <==> ChildrenOf(edges, u, Contains) != []
    requires forall v :: v in keys <==> v in sources || InDegree(edges, sources, v) > 0
    ensures keys == Endpoints(edges)
    ensures forall e :: e in edges && e.edgeType == Contains ==> e.source in sources
  {
    forall e | e in edges && e.edgeType == Contains
      ensures e.source in sources && Linked(edges, Contains, e.source, e.target)
    {
      ParentsAndChildren(edges, Contains, e.source, e.target);
    }
    forall v
      ensures InDegree(edges, sources, v) > 0 <==> exists u :: Linked(edges, Contains, u, v) && u in sources
    {
      InDegreeZero(edges, sources, v);
    }
    forall u | u in sources
      ensures u in Endpoints(edges)
    {
      var v := ChildrenOf(edges, u, Contains)[0];
      ParentsAndChildren(edges, Contains, u, v);
    }
  }

  lemma {:induction false} InDegreeOfSources(edges: seq<Edge>, sources: set<NodeId>, keys: set<NodeId>, v: NodeId)
    requires sources <= keys
    requires forall e :: e in edges && e.edgeType == Contains ==> e.source in sources
    ensures InDegree(edges, sources, v) == InDegree(edges, keys, v)
  {
    if edges != [] {
      InDegreeOfSources(edges[..|edges| - 1], sources, keys, v);
    }
  }

  // ---- Kahn's loop ------------------------------------------------------------------

  // Decrements once per occurrence and stacks every kid that reaches zero.
  method ReleaseKids(kids: seq<NodeId>, before: map<NodeId, int>, stack: seq<NodeId>)
    returns (indeg: map<NodeId, int>, released: seq<NodeId>, after: seq<NodeId>)
    requires forall v :: v in kids ==> v in before && Times(kids, v) <= before[v]
    ensures indeg.Keys == before.Keys
    ensures forall v :: v in indeg ==> indeg[v] == before[v] - Times(kids, v)
    ensures after == stack + released && NoRepeats(released)
    ensures forall v :: v in released <==> v in kids && before[v] == Times(kids, v)
  {
    indeg, released, after := before, [], stack;
    for i := 0 to |kids|
      invariant indeg.Keys == before.Keys
      invariant forall v :: v in indeg ==> indeg[v] == before[v] - Times(kids[..i], v)
      invariant after == stack + released && NoRepeats(released)
      invariant forall v :: v in released <==> v in kids[..i] && before[v] == Times(kids[..i], v)
    {
      var kid := kids[i];
      assert kids[..i + 1] == kids[..i] + [kid];
      assert kids == kids[..i + 1] + kids[i + 1..];
      assert Times(kids[..i + 1], kid) <= Times(kids, kid);
      indeg := indeg[kid := indeg[kid] - 1];
      if indeg[kid] == 0 {
        after := after + [kid];
        released := released + [kid];
      }
    }
    assert kids[..|kids|] == kids;
  }

  // Every CONTAINS parent of a listed node is listed before it.
  ghost predicate Topological(edges: seq<Edge>, order: seq<NodeId>) {
    && NoRepeats(order)
    && (forall j, u :: 0 <= j < |order| && Linked(edges, Contains, u, order[j]) ==> u in order[..j])
  }

  // Degrees count the parents that are not listed yet.
  ghost predicate DegreesOk(edges: seq<Edge>, indeg: map<NodeId, int>, order: seq<NodeId>) {
    && indeg.Keys == Endpoints(edges)
    && (forall v :: v in indeg ==> indeg[v] == InDegree(edges, indeg.Keys - Members(order), v))
  }

  // The stack holds, once each, the nodes that have no parent left and are not listed.
  ghost predicate StackOk(indeg: map<NodeId, int>, stack: seq<NodeId>, order: seq<NodeId>) {
    && NoRepeats(stack)
    && (forall v :: v in order ==> v in indeg && indeg[v] == 0)
    && (forall v :: v in stack <==> v in indeg && indeg[v] == 0 && v !in order)
  }

  // A node without remaining parents may be listed next.
  lemma ListNext(edges: seq<Edge>, keys: set<NodeId>, order: seq<NodeId>, cur: NodeId)
    requires keys == Endpoints(edges) && Topological(edges, order)
    requires cur !in order && InDegree(edges, keys - Members(order), cur) == 0
    ensures Topological(edges, order + [cur])
  {
    InDegreeZero(edges, keys - Members(order), cur);
    var next := order + [cur];
    forall j, u | 0 <= j < |next| && Linked(edges, Contains, u, next[j])
      ensures u in next[..j]
    {
      if j < |order| {
        assert next[..j] == order[..j];
      } else {
        assert next[..j] == order;
        assert u in Members(order);
      }
    }
  }

  lemma DegreesAfter(edges: seq<Edge>, keys: set<NodeId>, order: seq<NodeId>, cur: NodeId, v: NodeId)
    requires cur in keys && cur !in order
    ensures InDegree(edges, keys - Members(order), v) ==
            InDegree(edges, keys - Members(order + [cur]), v) + Times(ChildrenOf(edges, cur, Contains), v)
  {
    var rest := keys - Members(order + [cur]);
    assert keys - Members(order) == rest + {cur};
    InDegreeGrows(edges, rest, cur, v);
  }

  lemma DegreesStep(edges: seq<Edge>, before: map<NodeId, int>, order: seq<NodeId>, cur: NodeId, indeg: map<NodeId, int>)
    requires DegreesOk(edges, before, order) && cur in before && cur !in order
    requires indeg.Keys == before.Keys
    requires forall v :: v in indeg ==> indeg[v] == before[v] - Times(ChildrenOf(edges, cur, Contains), v)
    ensures DegreesOk(edges, indeg, order + [cur])
  {
    forall v | v in indeg
      ensures indeg[v] == InDegree(edges, indeg.Keys - Members(order + [cur]), v)
    {
      DegreesAfter(edges, indeg.Keys, order, cur, v);
    }
  }

  lemma StackStep(before: map<NodeId, int>, stack: seq<NodeId>, order: seq<NodeId>, cur: NodeId,
                  kids: seq<NodeId>, indeg: map<NodeId, int>, released: seq<NodeId>)
    requires StackOk(before, stack + [cur], order) && NoRepeats(released)
    requires indeg.Keys == before.Keys
    requires forall v :: v in indeg ==> Times(kids, v) <= before[v] && indeg[v] == before[v] - Times(kids, v)
    requires forall v :: v in released <==> v in kids && v in before && before[v] == Times(kids, v)
    ensures StackOk(indeg, stack + released, order + [cur])
  {
    var all := stack + [cur];
    assert all[|stack|] == cur;
    assert forall i :: 0 <= i < |stack| ==> stack[i] == all[i];
    assert cur !in stack && NoRepeats(stack);
    assert forall v :: v in all <==> v in stack || v == cur;
    assert forall v :: v in kids <==> Times(kids, v) > 0;
    assert Members(stack) !! Members(released);
    JoinNoRepeats(stack, released);
  }

  // Nothing in an ordering that lists every endpoint lies above itself.
  lemma {:induction false} OrderClimbs(edges: seq<Edge>, order: seq<NodeId>, a: NodeId, j: nat, w: seq<Step>)
    requires Topological(edges, order) && j < |order|
    requires w != [] && IsWalk(TypedNetwork(edges, Contains), a, order[j], w)
    ensures exists i :: 0 <= i < j && order[i] == a
    decreases |w|
  {
    var last := w[|w| - 1];
    LinkIsStep(edges, Contains, last.from, order[j]);
    assert last == Step(last.from, order[j], last.edge);
    assert last.from in order[..j];
    var k: nat :| k < j && order[..j][k] == last.from;
    if |w| > 1 {
      OrderClimbs(edges, order, a, k, w[..|w| - 1]);
    }
  }

  lemma {:induction false} AboveIsLinked(edges: seq<Edge>, t: EdgeType, a: NodeId, b: NodeId, w: seq<Step>)
    requires w != [] && IsWalk(TypedNetwork(edges, t), a, b, w)
    ensures exists u :: Linked(edges, t, u, b)
  {
    var last := w[|w| - 1];
    LinkIsStep(edges, t, last.from, b);
    assert last == Step(last.from, b, last.edge);
    assert Linked(edges, t, last.from, b);
  }

  lemma OrderedIsAcyclic(edges: seq<Edge>, order: seq<NodeId>)
    requires Topological(edges, order) && Endpoints(edges) <= Members(order)
    ensures !HasCycle(edges)
  {
    forall x | Above(edges, Contains, x, x)
      ensures false
    {
      var w :| w != [] && IsWalk(TypedNetwork(edges, Contains), x, x, w);
      AboveIsLinked(edges, Contains, x, x, w);
      var u :| Linked(edges, Contains, u, x);
      assert x in Members(order);
      var j: nat :| j < |order| && order[j] == x;
      OrderClimbs(edges, order, x, j, w);
    }
  }

  // ---- A stuck set contains a cycle ---------------------------------------------------

  // Each node of the trail contains the one before it.
  ghost predicate Trail(edges: seq<Edge>, trail: seq<NodeId>) {
    forall i :: 0 <= i < |trail| - 1 ==> Linked(edges, Contains, trail[i + 1], trail[i])
  }

  lemma {:induction false} TrailIsAbove(edges: seq<Edge>, trail: seq<NodeId>, i: nat, j: nat)
    requires Trail(edges, trail) && i < j < |trail|
    ensures Above(edges, Contains, trail[j], trail[i])
    decreases j - i
  {
    LinkIsAbove(edges, Contains, trail[i + 1], trail[i]);
    if i + 1 < j {
      TrailIsAbove(edges, trail, i + 1, j);
      AboveIsTransitive(edges, Contains, trail[j], trail[i + 1], trail[i]);
    }
  }

  lemma {:induction false} DistinctSize(s: seq<NodeId>, S: set<NodeId>)
    requires NoRepeats(s) && (forall x :: x in s ==> x in S)
    ensures |s| <= |S|
    decreases |s|
  {
    if s != [] {
      var x := s[|s| - 1];
      var p := s[..|s| - 1];
      assert x !in p;
      DistinctSize(p, S - {x});
    }
  }

  lemma {:induction false} MembersSize(s: seq<NodeId>)
    ensures |Members(s)| <= |s|
  {
    if s != [] {
      var p := s[..|s| - 1];
      MembersSize(p);
      assert Members(s) == Members(p) + {s[|s| - 1]};
    }
  }

  ghost predicate HasParentIn(edges: seq<Edge>, S: set<NodeId>, v: NodeId) {
    exists u :: u in S && Linked(edges, Contains, u, v)
  }

  lemma TrailCloses(edges: seq<Edge>, trail: seq<NodeId>, u: NodeId)
    requires trail != [] && Trail(edges, trail) && u in trail
    requires Linked(edges, Contains, u, trail[|trail| - 1])
    ensures HasCycle(edges)
  {
    var n := |trail| - 1;
    LinkIsAbove(edges, Contains, u, trail[n]);
    var i: nat :| i <= n && trail[i] == u;
    if i < n {
      TrailIsAbove(edges, trail, i, n);
      AboveIsTransitive(edges, Contains, u, trail[n], u);
    }
    assert Above(edges, Contains, u, u);
  }

  // Following parents inside a finite set must come back to a node already met.
  lemma {:induction false} StuckHasCycle(edges: seq<Edge>, S: set<NodeId>, trail: seq<NodeId>)
    requires forall v {:trigger HasParentIn(edges, S, v)} :: v in S ==> HasParentIn(edges, S, v)
    requires trail != [] && NoRepeats(trail) && Trail(edges, trail) && forall x :: x in trail ==> x in S
    ensures HasCycle(edges)
    decreases |S| - |trail|
  {
    DistinctSize(trail, S);
    var n := |trail| - 1;
    assert trail[n] in trail;
    assert HasParentIn(edges, S, trail[n]);
    var u :| u in S && Linked(edges, Contains, u, trail[n]);
    if u in trail {
      TrailCloses(edges, trail, u);
    } else {
      DistinctSize(trail + [u], S);
      StuckHasCycle(edges, S, trail + [u]);
    }
  }

  lemma StuckDegreesHaveCycle(edges: seq<Edge>, indeg: map<NodeId, int>, order: seq<NodeId>, v: NodeId)
    requires DegreesOk(edges, indeg, order) && StackOk(indeg, [], order)
    requires v in indeg && v !in order
    ensures HasCycle(edges)
  {
    var S := indeg.Keys - Members(order);
    forall x | x in S
      ensures HasParentIn(edges, S, x)
    {
      InDegreeZero(edges, S, x);
    }
    StuckHasCycle(edges, S, [v]);
  }

  // The verdict when the stack is empty.
  lemma KahnVerdict(edges: seq<Edge>, indeg: map<NodeId, int>, order: seq<NodeId>)
    requires Topological(edges, order) && DegreesOk(edges, indeg, order) && StackOk(indeg, [], order)
    ensures |order| != |indeg| <==> HasCycle(edges)
  {
    if indeg.Keys <= Members(order) {
      OrderedIsAcyclic(edges, order);
      DistinctSize(order, indeg.Keys);
      assert Members(order) == indeg.Keys;
      MembersSize(order);
    } else {
      var v :| v in indeg && v !in Members(order);
      StuckDegreesHaveCycle(edges, indeg, order, v);
      DistinctSize(order, indeg.Keys - {v});
    }
  }

  lemma KidsFitDegrees(edges: seq<Edge>, indeg: map<NodeId, int>, order: seq<NodeId>, cur: NodeId, v: NodeId)
    requires DegreesOk(edges, indeg, order) && cur in indeg && cur !in order
    ensures v in ChildrenOf(edges, cur, Contains) ==> v in indeg
    ensures v in indeg ==> Times(ChildrenOf(edges, cur, Contains), v) <= indeg[v]
  {
    DegreesAfter(edges, indeg.Keys, order, cur, v);
    ParentsAndChildren(edges, Contains, cur, v);
  }

  method CollectRoots(indeg: map<NodeId, int>) returns (stack: seq<NodeId>)
    ensures StackOk(indeg, stack, [])
  {
    stack := [];
    var left := indeg.Keys;
    while left != {}
      invariant left <= indeg.Keys && NoRepeats(stack)
      invariant forall v :: v in stack <==> v in indeg && v !in left && indeg[v] == 0
      decreases left
    {
      var k :| k in left;
      left := left - {k};
      if indeg[k] == 0 {
        stack := stack + [k];
      }
    }
  }

  // One pass of the loop: cur leaves the stack, its kids lose one parent each.
  lemma KahnStep(edges: seq<Edge>, before: map<NodeId, int>, stack: seq<NodeId>, order: seq<NodeId>, cur: NodeId,
                 indeg: map<NodeId, int>, released: seq<NodeId>)
    requires Topological(edges, order) && DegreesOk(edges, before, order) && StackOk(before, stack + [cur], order)
    requires indeg.Keys == before.Keys && NoRepeats(released)
    requires var kids := ChildrenOf(edges, cur, Contains);
             && (forall v :: v in indeg ==> indeg[v] == before[v] - Times(kids, v))
             && (forall v :: v in released <==> v in kids && v in before && before[v] == Times(kids, v))
    ensures Topological(edges, order + [cur]) && DegreesOk(edges, indeg, order + [cur])
    ensures StackOk(indeg, stack + released, order + [cur])
    ensures indeg.Keys - Members(order + [cur]) < before.Keys - Members(order)
  {
    hide ChildrenOf, Linked;
    assert cur in stack + [cur];
    assert cur in before && cur !in order;
    forall v | v in indeg
      ensures Times(ChildrenOf(edges, cur, Contains), v) <= before[v]
    {
      KidsFitDegrees(edges, before, order, cur, v);
    }
    ListNext(edges, before.Keys, order, cur);
    DegreesStep(edges, before, order, cur, indeg);
    StackStep(before, stack, order, cur, ChildrenOf(edges, cur, Contains), indeg, released);
    assert Members(order + [cur]) == Members(order) + {cur};
    assert cur in before.Keys - Members(order);
  }

  lemma KidsFit(edges: seq<Edge>, indeg: map<NodeId, int>, stack: seq<NodeId>, order: seq<NodeId>, cur: NodeId)
    requires DegreesOk(edges, indeg, order) && StackOk(indeg, stack + [cur], order)
    ensures forall v :: v in ChildrenOf(edges, cur, Contains) ==>
                          v in indeg && Times(ChildrenOf(edges, cur, Contains), v) <= indeg[v]
  {
    assert cur in stack + [cur];
    forall v | v in ChildrenOf(edges, cur, Contains)
      ensures v in indeg && Times(ChildrenOf(edges, cur, Contains), v) <= indeg[v]
    {
      KidsFitDegrees(edges, indeg, order, cur, v);
    }
  }

  // Kahn's topological sort: a cycle exists exactly when some endpoint is never listed.
  method HasCycleKahn(edges: seq<Edge>) returns (cyclic: bool)
    ensures cyclic <==> HasCycle(edges)
  {
    hide Topological, DegreesOk, StackOk, HasCycle, ChildrenOf;
    var childOf := GroupChildren(edges);
    var indeg := CountDegrees(edges, childOf);
    var stack := CollectRoots(indeg);
    var visited := 0;
    ghost var order: seq<NodeId> := [];
    StartKahn(edges, indeg);
    while stack != []
      invariant Topological(edges, order) && DegreesOk(edges, indeg, order) && StackOk(indeg, stack, order)
      invariant visited == |order|
      decreases indeg.Keys - Members(order)
    {
      var cur := stack[|stack| - 1];
      assert stack == stack[..|stack| - 1] + [cur];
      stack := stack[..|stack| - 1];
      visited := visited + 1;
      ghost var before, base := indeg, stack;
      var kids := if cur in childOf then childOf[cur] else [];
      assert kids == ChildrenOf(edges, cur, Contains);
      KidsFit(edges, indeg, stack, order, cur);
      ghost var released;
      indeg, released, stack := ReleaseKids(kids, indeg, stack);
      KahnStep(edges, before, base, order, cur, indeg, released);
      order := order + [cur];
    }
    cyclic := visited != |indeg|;
    KahnVerdict(edges, indeg, order);
  }

  lemma StartKahn(edges: seq<Edge>, indeg: map<NodeId, int>)
    requires indeg.Keys == Endpoints(edges)
    requires forall v :: v in indeg ==> indeg[v] == InDegree(edges, indeg.Keys, v)
    ensures Topological(edges, []) && DegreesOk(edges, indeg, [])
  {
    assert indeg.Keys - Members([]) == indeg.Keys;
  }
}
