// Parents, children and their closures.

module Hierarchy {
  import opened Types
  import opened Walks

  function TypedSteps(edges: seq<Edge>, t: EdgeType): set<Step> {
    set i: nat | i < |edges| && edges[i].edgeType == t :: Step(edges[i].source, edges[i].target, i)
  }

  // The edges of one type, each leading from its source to its target.
  function TypedNetwork(edges: seq<Edge>, t: EdgeType): Network {
    map st | st in TypedSteps(edges, t) :: 1.0
  }

  lemma TypedNetworkMembers(edges: seq<Edge>, t: EdgeType, st: Step)
    ensures st in TypedNetwork(edges, t) <==>
            st.edge < |edges| && edges[st.edge].edgeType == t &&
            st.from == edges[st.edge].source && st.to == edges[st.edge].target
  {
    if st.edge < |edges| && edges[st.edge].edgeType == t && st.from == edges[st.edge].source && st.to == edges[st.edge].target {
      var i := st.edge;
      assert st == Step(edges[i].source, edges[i].target, i);
    }
  }

  // One or more typed edges lead from a to b.
  ghost predicate Above(edges: seq<Edge>, t: EdgeType, a: NodeId, b: NodeId) {
    exists w :: w != [] && IsWalk(TypedNetwork(edges, t), a, b, w)
  }

  // ---- Parents and children --------------------------------------------------

  function ParentsOf(edges: seq<Edge>, id: NodeId, t: EdgeType): seq<NodeId> {
    if edges == [] then []
    else
      var e := edges[|edges| - 1];
      ParentsOf(edges[..|edges| - 1], id, t) + if e.edgeType == t && e.target == id then [e.source] else []
  }

  function ChildrenOf(edges: seq<Edge>, id: NodeId, t: EdgeType): seq<NodeId> {
    if edges == [] then []
    else
      var e := edges[|edges| - 1];
      ChildrenOf(edges[..|edges| - 1], id, t) + if e.edgeType == t && e.source == id then [e.target] else []
  }

  // There is an edge of type t from a to b.
  ghost predicate Linked(edges: seq<Edge>, t: EdgeType, a: NodeId, b: NodeId) {
    exists e :: e in edges && e.edgeType == t && e.source == a && e.target == b
  }

  lemma {:induction false} ParentsAndChildren(edges: seq<Edge>, t: EdgeType, a: NodeId, b: NodeId)
    ensures a in ParentsOf(edges, b, t) <==> Linked(edges, t, a, b)
    ensures b in ChildrenOf(edges, a, t) <==> Linked(edges, t, a, b)
  {
    if edges != [] {
      var n := |edges| - 1;
      ParentsAndChildren(edges[..n], t, a, b);
      var e := edges[n];
      assert edges == edges[..n] + [e];
      assert Linked(edges, t, a, b) <==>
             Linked(edges[..n], t, a, b) || (e.edgeType == t && e.source == a && e.target == b);
    }
  }

  lemma LinkIsStep(edges: seq<Edge>, t: EdgeType, a: NodeId, b: NodeId)
    ensures Linked(edges, t, a, b) <==> exists i :: Step(a, b, i) in TypedNetwork(edges, t)
  {
    if Linked(edges, t, a, b) {
      var i: nat :| i < |edges| && edges[i].edgeType == t && edges[i].source == a && edges[i].target == b;
      TypedNetworkMembers(edges, t, Step(a, b, i));
    }
    forall i | Step(a, b, i) in TypedNetwork(edges, t)
      ensures Linked(edges, t, a, b)
    {
      TypedNetworkMembers(edges, t, Step(a, b, i));
    }
  }

  method Parents(edges: seq<Edge>, id: NodeId, t: EdgeType) returns (out: seq<NodeId>)
    ensures out == ParentsOf(edges, id, t)
  {
    out := [];
    for i := 0 to |edges|
      invariant out == ParentsOf(edges[..i], id, t)
    {
      assert edges[..i + 1][..i] == edges[..i];
      if edges[i].edgeType == t && edges[i].target == id {
        out := out + [edges[i].source];
      }
    }
    assert edges[..|edges|] == edges;
  }

  method Children(edges: seq<Edge>, id: NodeId, t: EdgeType) returns (out: seq<NodeId>)
    ensures out == ChildrenOf(edges, id, t)
  {
    out := [];
    for i := 0 to |edges|
      invariant out == ChildrenOf(edges[..i], id, t)
    {
      assert edges[..i + 1][..i] == edges[..i];
      if edges[i].edgeType == t && edges[i].source == id {
        out := out + [edges[i].target];
      }
    }
    assert edges[..|edges|] == edges;
  }

  // ---- Closures ---------------------------------------------------------------

  ghost predicate NoRepeats<T>(s: seq<T>) {
    forall i, j :: 0 <= i < j < |s| ==> s[i] != s[j]
  }

  lemma LinkIsAbove(edges: seq<Edge>, t: EdgeType, a: NodeId, b: NodeId)
    requires Linked(edges, t, a, b)
    ensures Above(edges, t, a, b)
  {
    LinkIsStep(edges, t, a, b);
    var i :| Step(a, b, i) in TypedNetwork(edges, t);
    assert [Step(a, b, i)][..0] == [];
    assert IsWalk(TypedNetwork(edges, t), a, b, [Step(a, b, i)]);
  }

  lemma AboveIsTransitive(edges: seq<Edge>, t: EdgeType, a: NodeId, b: NodeId, c: NodeId)
    requires Above(edges, t, a, b) && Above(edges, t, b, c)
    ensures Above(edges, t, a, c)
  {
    var v :| v != [] && IsWalk(TypedNetwork(edges, t), a, b, v);
    var w :| w != [] && IsWalk(TypedNetwork(edges, t), b, c, w);
    JoinWalks(TypedNetwork(edges, t), a, b, c, v, w);
    assert v + w != [];
  }

  // A set that holds the parents of id and of its own members holds everything above id.
  lemma {:induction false} ClosedUpwards(edges: seq<Edge>, t: EdgeType, id: NodeId, S: set<NodeId>, a: NodeId, y: NodeId, w: seq<Step>)
    requires forall x, p :: (x == id || x in S) && Linked(edges, t, p, x) ==> p in S
    requires w != [] && IsWalk(TypedNetwork(edges, t), a, y, w)
    requires y == id || y in S
    ensures a in S
    decreases |w|
  {
    var last := w[|w| - 1];
    LinkIsStep(edges, t, last.from, y);
    assert last == Step(last.from, y, last.edge);
    assert Linked(edges, t, last.from, y);
    if |w| > 1 {
      ClosedUpwards(edges, t, id, S, a, last.from, w[..|w| - 1]);
    }
  }

  lemma {:induction false} ClosedDownwards(edges: seq<Edge>, t: EdgeType, id: NodeId, S: set<NodeId>, b: NodeId, w: seq<Step>)
    requires forall x, c :: (x == id || x in S) && Linked(edges, t, x, c) ==> c in S
    requires w != [] && IsWalk(TypedNetwork(edges, t), id, b, w)
    ensures b in S
    decreases |w|
  {
    var last := w[|w| - 1];
    if |w| > 1 {
      ClosedDownwards(edges, t, id, S, last.from, w[..|w| - 1]);
    }
    LinkIsStep(edges, t, last.from, b);
    assert last == Step(last.from, b, last.edge);
    assert Linked(edges, t, last.from, b);
  }

  // Progress of a closure: closed nodes have all their links followed, waiting ones have not.
  ghost predicate ClosingUp(edges: seq<Edge>, t: EdgeType, id: NodeId, visited: set<NodeId>, closed: set<NodeId>, waiting: set<NodeId>) {
    && (forall a :: a in visited ==> Above(edges, t, a, id))
    && (forall x :: x == id || x in visited ==> x in closed || x in waiting)
    && (forall x :: x in waiting ==> x == id || x in visited)
    && (forall x, p :: x in closed && Linked(edges, t, p, x) ==> p in visited)
  }

  ghost predicate ClosingDown(edges: seq<Edge>, t: EdgeType, id: NodeId, visited: set<NodeId>, closed: set<NodeId>, waiting: set<NodeId>) {
    && (forall b :: b in visited ==> Above(edges, t, id, b))
    && (forall x :: x == id || x in visited ==> x in closed || x in waiting)
    && (forall x :: x in waiting ==> x == id || x in visited)
    && (forall x, c :: x in closed && Linked(edges, t, x, c) ==> c in visited)
  }

  function Members<T>(s: seq<T>): set<T> {
    set x | x in s
  }

  lemma FollowParents(edges: seq<Edge>, t: EdgeType, id: NodeId, visited: set<NodeId>, closed: set<NodeId>, waiting: set<NodeId>, cur: NodeId)
    requires ClosingUp(edges, t, id, visited, closed, waiting + {cur})
    ensures var ps := Members(ParentsOf(edges, cur, t));
            ps <= Sources(edges) &&
            ClosingUp(edges, t, id, visited + ps, closed + {cur}, waiting + (ps - visited))
  {
    forall p | Linked(edges, t, p, cur)
      ensures p in Sources(edges) && Above(edges, t, p, id)
    {
      LinkIsAbove(edges, t, p, cur);
      if cur != id {
        AboveIsTransitive(edges, t, p, cur, id);
      }
    }
    forall p
      ensures p in ParentsOf(edges, cur, t) <==> Linked(edges, t, p, cur)
    {
      ParentsAndChildren(edges, t, p, cur);
    }
  }

  lemma FollowChildren(edges: seq<Edge>, t: EdgeType, id: NodeId, visited: set<NodeId>, closed: set<NodeId>, waiting: set<NodeId>, cur: NodeId)
    requires ClosingDown(edges, t, id, visited, closed, waiting + {cur})
    ensures var cs := Members(ChildrenOf(edges, cur, t));
            cs <= Targets(edges) &&
            ClosingDown(edges, t, id, visited + cs, closed + {cur}, waiting + (cs - visited))
  {
    forall c | Linked(edges, t, cur, c)
      ensures c in Targets(edges) && Above(edges, t, id, c)
    {
      LinkIsAbove(edges, t, cur, c);
      if cur != id {
        AboveIsTransitive(edges, t, id, cur, c);
      }
    }
    forall c
      ensures c in ChildrenOf(edges, cur, t) <==> Linked(edges, t, cur, c)
    {
      ParentsAndChildren(edges, t, cur, c);
    }
  }

  lemma ClosedUp(edges: seq<Edge>, t: EdgeType, id: NodeId, visited: set<NodeId>, closed: set<NodeId>)
    requires ClosingUp(edges, t, id, visited, closed, {})
    ensures forall a :: a in visited <==> Above(edges, t, a, id)
  {
    forall a | Above(edges, t, a, id)
      ensures a in visited
    {
      var w :| w != [] && IsWalk(TypedNetwork(edges, t), a, id, w);
      ClosedUpwards(edges, t, id, visited, a, id, w);
    }
  }

  lemma ClosedDown(edges: seq<Edge>, t: EdgeType, id: NodeId, visited: set<NodeId>, closed: set<NodeId>)
    requires ClosingDown(edges, t, id, visited, closed, {})
    ensures forall b :: b in visited <==> Above(edges, t, id, b)
  {
    forall b | Above(edges, t, id, b)
      ensures b in visited
    {
      var w :| w != [] && IsWalk(TypedNetwork(edges, t), id, b, w);
      ClosedDownwards(edges, t, id, visited, b, w);
    }
  }

  function Sources(edges: seq<Edge>): set<NodeId> {
    set e | e in edges :: e.source
  }

  function Targets(edges: seq<Edge>): set<NodeId> {
    set e | e in edges :: e.target
  }

  lemma JoinNoRepeats<T>(a: seq<T>, b: seq<T>)
    requires NoRepeats(a) && NoRepeats(b) && Members(a) !! Members(b)
    ensures NoRepeats(a + b)
  {
    forall i, j | 0 <= i < j < |a + b|
      ensures (a + b)[i] != (a + b)[j]
    {
      if i < |a| <= j {
        assert a[i] in Members(a) && b[j - |a|] in Members(b);
      }
    }
  }

  // The inner loop of both closures: the ids not seen before, in order of first appearance.
  method KeepUnseen(ids: seq<NodeId>, visited: set<NodeId>) returns (unseen: seq<NodeId>)
    ensures NoRepeats(unseen) && Members(unseen) == Members(ids) - visited
  {
    unseen := [];
    for i := 0 to |ids|
      invariant NoRepeats(unseen) && Members(unseen) == Members(ids[..i]) - visited
    {
      assert Members(ids[..i + 1]) == Members(ids[..i]) + {ids[i]};
      if ids[i] !in visited && ids[i] !in unseen {
        assert Members(unseen + [ids[i]]) == Members(unseen) + {ids[i]};
        unseen := unseen + [ids[i]];
      }
    }
    assert ids[..|ids|] == ids;
  }

  // Breadth-first closure over parents.
  method Ancestors(edges: seq<Edge>, id: NodeId, t: EdgeType) returns (out: seq<NodeId>)
    ensures NoRepeats(out)
    ensures forall a :: a in out <==> Above(edges, t, a, id)
  {
    hide Above, Linked, ParentsOf, IsWalk, ClosingUp;
    out := [];
    var visited: set<NodeId> := {};
    var queue := [id];
    ghost var closed: set<NodeId> := {};
    StartClosing(edges, t, id);
    while queue != []
      invariant NoRepeats(out) && Members(out) == visited <= Sources(edges)
      invariant ClosingUp(edges, t, id, visited, closed, Members(queue))
      decreases Sources(edges) - visited, |queue|
    {
      var cur := queue[0];
      assert Members(queue) == Members(queue[1..]) + {cur};
      queue := queue[1..];
      var ps := Parents(edges, cur, t);
      FollowParents(edges, t, id, visited, closed, Members(queue), cur);
      var unseen := KeepUnseen(ps, visited);
      assert visited + Members(ps) == visited + Members(unseen);
      assert Members(queue + unseen) == Members(queue) + Members(unseen);
      assert Members(out + unseen) == Members(out) + Members(unseen);
      JoinNoRepeats(out, unseen);
      visited := visited + Members(unseen);
      out := out + unseen;
      queue := queue + unseen;
      closed := closed + {cur};
      assert unseen != [] ==> unseen[0] in visited;
    }
    assert Members(queue) == {};
    ClosedUp(edges, t, id, visited, closed);
  }

  // Breadth-first closure over children.
  method Descendants(edges: seq<Edge>, id: NodeId, t: EdgeType) returns (out: seq<NodeId>)
    ensures NoRepeats(out)
    ensures forall b :: b in out <==> Above(edges, t, id, b)
  {
    hide Above, Linked, ChildrenOf, IsWalk, ClosingDown;
    out := [];
    var visited: set<NodeId> := {};
    var queue := [id];
    ghost var closed: set<NodeId> := {};
    StartClosing(edges, t, id);
    while queue != []
      invariant NoRepeats(out) && Members(out) == visited <= Targets(edges)
      invariant ClosingDown(edges, t, id, visited, closed, Members(queue))
      decreases Targets(edges) - visited, |queue|
    {
      var cur := queue[0];
      assert Members(queue) == Members(queue[1..]) + {cur};
      queue := queue[1..];
      var cs := Children(edges, cur, t);
      FollowChildren(edges, t, id, visited, closed, Members(queue), cur);
      var unseen := KeepUnseen(cs, visited);
      assert visited + Members(cs) == visited + Members(unseen);
      assert Members(queue + unseen) == Members(queue) + Members(unseen);
      assert Members(out + unseen) == Members(out) + Members(unseen);
      JoinNoRepeats(out, unseen);
      visited := visited + Members(unseen);
      out := out + unseen;
      queue := queue + unseen;
      closed := closed + {cur};
      assert unseen != [] ==> unseen[0] in visited;
    }
    assert Members(queue) == {};
    ClosedDown(edges, t, id, visited, closed);
  }

  lemma StartClosing(edges: seq<Edge>, t: EdgeType, id: NodeId)
    ensures ClosingUp(edges, t, id, {}, {}, Members([id]))
    ensures ClosingDown(edges, t, id, {}, {}, Members([id]))
  {
  }
}
