// Merges and the order of their inputs.

module MergeOrder {
  import opened Types
  import opened Sorting
  import opened Ordering
  import opened Merge
  import opened MergeGraph
  import opened MergeTheorems

  // ---- The groups that are kept ------------------------------------------------------

  // The node ids of the kept groups, by group key.
  ghost function KeptIds(derive: string -> NodeId, cs: seq<Contribution>, bounds: Bounds): map<string, NodeId> {
    var ms := Ingested(cs, bounds.maxNodes);
    TableOf(derive, ms, KeyOrder(KeysOf(ms)), bounds.maxNodes).ids
  }

  // While their ids are distinct, the first groups in key order are kept, up to the bound.
  lemma {:induction false} FirstGroupsAreKept(derive: string -> NodeId, ms: seq<Member>, order: seq<string>, maxNodes: nat)
    requires AllDistinct(order) && forall k :: k in order ==> Best(ms, k) != []
    requires forall a, b :: a in order && b in order && derive(a) == derive(b) ==> a == b
    ensures var t := TableOf(derive, ms, order, maxNodes);
            && |t.nodes| == |Take(order, maxNodes)|
            && (forall id :: id in t.nodes ==> exists k :: k in order && derive(k) == id)
            && (forall k :: k in t.ids <==> k in Take(order, maxNodes))
  {
    hide MergedNode, Best;
    if order != [] {
      var n := |order| - 1;
      var p := order[..n];
      assert order == p + [order[n]];
      FirstGroupsAreKept(derive, ms, p, maxNodes);
      assert order[n] in order && order[n] !in p;
      if n < maxNodes {
        assert derive(order[n]) !in TableOf(derive, ms, p, maxNodes).nodes;
      } else {
        assert Take(order, maxNodes) == Take(p, maxNodes);
      }
    }
  }

  // With distinct ids, a group is kept exactly when fewer group keys than the bound precede its key.
  lemma KeptExactly(derive: string -> NodeId, cs: seq<Contribution>, bounds: Bounds, k: string)
    requires InjectiveOn(derive, KeysOf(Ingested(cs, bounds.maxNodes)))
    ensures var keys := KeysOf(Ingested(cs, bounds.maxNodes));
            k in KeptIds(derive, cs, bounds) <==> k in keys && |KeysBefore(keys, k)| < bounds.maxNodes
  {
    hide GroupKey, TableOf, Best, Ingested, KeysBefore;
    var ms := Ingested(cs, bounds.maxNodes);
    var order := KeyOrder(KeysOf(ms));
    OrderIsDistinct(KeysOf(ms), order);
    forall x | x in order
      ensures Best(ms, x) != []
    {
      BestMembers(ms, x);
    }
    FirstGroupsAreKept(derive, ms, order, bounds.maxNodes);
    if k in order {
      var j :| 0 <= j < |order| && order[j] == k;
      PlaceInOrder(KeysOf(ms), order, j);
      assert k in Take(order, bounds.maxNodes) <==> j < bounds.maxNodes;
    }
  }

  // ---- Hash order -------------------------------------------------------------------

  // Every reference that is not itself the key of a kept group means one node.
  ghost predicate RefsUnambiguous(ms: seq<Member>, ids: map<string, NodeId>) {
    forall r, x, y :: r !in ids && Declares(ms, ids, r, x) && Declares(ms, ids, r, y) ==> x == y
  }

  // Every order of the groups gives the same reference table exactly when no reference is ambiguous.
  lemma HashOrderMattersOnlyIfAmbiguous(ms: seq<Member>, ids: map<string, NodeId>)
    ensures RefsUnambiguous(ms, ids) <==>
            forall a, b :: ByVisitOrder(ms, ids, a) && ByVisitOrder(ms, ids, b) ==> a == b
  {
    hide ByVisitOrder, RefsOk, Declares;
    if RefsUnambiguous(ms, ids) {
      forall a, b | ByVisitOrder(ms, ids, a) && ByVisitOrder(ms, ids, b)
        ensures a == b
      {
        VisitedRefs(ms, ids, a);
        VisitedRefs(ms, ids, b);
        TablesAgree(ms, ids, a, b);
      }
    } else {
      var r, x, y :| r !in ids && Declares(ms, ids, r, x) && Declares(ms, ids, r, y) && x != y;
      AnyMeaning(ms, ids, r, x);
      AnyMeaning(ms, ids, r, y);
    }
  }

  // Whatever a declaring group makes of a reference, some order of the groups makes of it too.
  lemma AnyMeaning(ms: seq<Member>, ids: map<string, NodeId>, r: string, x: NodeId)
    requires r !in ids && Declares(ms, ids, r, x)
    ensures exists refs :: ByVisitOrder(ms, ids, refs) && r in refs && refs[r] == x
  {
    hide ByVisitOrder, GroupKey;
    var m :| m in ms && m.node.ref == r && IdOf(ids, GroupKey(m.node)) == x;
    AnyDeclarerDecides(ms, ids, m);
  }

  lemma TablesAgree(ms: seq<Member>, ids: map<string, NodeId>, a: map<string, NodeId>, b: map<string, NodeId>)
    requires RefsUnambiguous(ms, ids) && RefsOk(ms, ids, a) && RefsOk(ms, ids, b)
    ensures a == b
  {
    hide GroupKey;
    forall r
      ensures r in a ==> r in b && a[r] == b[r]
      ensures r in b ==> r in a
    {
      if r in a && r !in ids {
        assert Declares(ms, ids, r, a[r]);
        assert r in b && Declares(ms, ids, r, b[r]);
      }
      if r in b && r !in ids {
        assert Declares(ms, ids, r, b[r]);
      }
    }
  }

  // The references that a run of the merge can see are unambiguous.
  ghost predicate Unambiguous(derive: string -> NodeId, cs: seq<Contribution>, bounds: Bounds) {
    RefsUnambiguous(Ingested(cs, bounds.maxNodes), KeptIds(derive, cs, bounds))
  }

  // ---- Order of contributions ------------------------------------------------------------

  ghost predicate RanksApart(ns: seq<ContributedNode>) {
    forall i, j :: 0 <= i < j < |ns| ==> Rank(ns[i]) != Rank(ns[j])
  }

  // Within a group no two members are equally confident.
  ghost predicate ConfidencesDistinct(cs: seq<Contribution>) {
    forall k :: RanksApart(Nodes(ByKey(FlatMembers(cs), k)))
  }

  lemma RanksApartIsOrderFree(a: seq<ContributedNode>, b: seq<ContributedNode>)
    requires RanksApart(a) && multiset(a) == multiset(b)
    ensures RanksApart(b)
  {
    hide Rank;
    assert AllDistinct(a);
    DistinctIsOrderFree(a, b);
    SameElements(a, b);
    forall i, j | 0 <= i < j < |b|
      ensures Rank(b[i]) != Rank(b[j])
    {
      assert b[i] in a && b[j] in a;
    }
  }

  predicate MoreConfident(a: ContributedNode, b: ContributedNode) {
    Rank(a) > Rank(b)
  }

  // Ranked members can be arranged best first in one way only.
  lemma BestFirstIsUnique(a: seq<ContributedNode>, b: seq<ContributedNode>)
    requires multiset(a) == multiset(b) && RanksApart(a) && BestFirst(a) && BestFirst(b)
    ensures a == b
  {
    RanksApartIsOrderFree(a, b);
    SameElements(a, b);
    assert StrictlySorted(MoreConfident, a);
    assert StrictlySorted(MoreConfident, b);
    StrictlySortedIsUnique(MoreConfident, a, b);
  }

  lemma {:induction false} NodesBag(ms: seq<Member>)
    ensures multiset(Nodes(ms)) == BagSum((m: Member) => multiset{m.node}, ms)
  {
    if ms != [] {
      var n := |ms| - 1;
      NodesBag(ms[..n]);
      assert Nodes(ms) == Nodes(ms[..n]) + [ms[n].node];
    } else {
      assert Nodes(ms) == [];
    }
  }

  lemma BestIsARearrangement(ms: seq<Member>, k: string)
    ensures multiset(Best(ms, k)) == multiset(Nodes(ByKey(ms, k)))
  {
    NodesBag(ByKey(ms, k));
    NodesBag(Sort(MemberLess, ByKey(ms, k)));
    BagSumIsOrderFree((m: Member) => multiset{m.node}, ByKey(ms, k), Sort(MemberLess, ByKey(ms, k)));
  }

  // The bag of a group is the part of the whole bag that has its key.
  lemma {:induction false} GroupBag(ms: seq<Member>, k: string, x: ContributedNode)
    ensures multiset(Nodes(ByKey(ms, k)))[x] == if GroupKey(x) == k then multiset(Nodes(ms))[x] else 0
  {
    hide GroupKey;
    if ms == [] {
      assert Nodes(ms) == [];
    } else {
      var n := |ms| - 1;
      GroupBag(ms[..n], k, x);
      assert Nodes(ms) == Nodes(ms[..n]) + [ms[n].node];
      if GroupKey(ms[n].node) == k {
        assert Nodes(ByKey(ms, k)) == Nodes(ByKey(ms[..n], k)) + [ms[n].node];
      } else {
        assert ByKey(ms, k) == ByKey(ms[..n], k);
      }
    }
  }

  // The same contributions in another order: the same nodes and edges, counted.
  lemma {:induction false} FlatNodesBag(cs: seq<Contribution>)
    ensures multiset(Nodes(FlatMembers(cs))) == BagSum((c: Contribution) => multiset(c.nodes), cs)
  {
    if cs == [] {
      assert Nodes(FlatMembers(cs)) == [];
    } else {
      var n := |cs| - 1;
      FlatNodesBag(cs[..n]);
      assert Nodes(FlatMembers(cs)) == Nodes(FlatMembers(cs[..n])) + cs[n].nodes;
    }
  }

  lemma {:induction false} FlatEdgesBag(cs: seq<Contribution>)
    ensures multiset(FlatEdges(cs)) == BagSum((c: Contribution) => multiset(c.edges), cs)
  {
    if cs != [] {
      FlatEdgesBag(cs[..|cs| - 1]);
    }
  }

  lemma SameBags(cs: seq<Contribution>, ds: seq<Contribution>)
    requires multiset(cs) == multiset(ds)
    ensures multiset(Nodes(FlatMembers(cs))) == multiset(Nodes(FlatMembers(ds)))
    ensures multiset(FlatEdges(cs)) == multiset(FlatEdges(ds))
  {
    FlatNodesBag(cs);
    FlatNodesBag(ds);
    FlatEdgesBag(cs);
    FlatEdgesBag(ds);
    BagSumIsOrderFree((c: Contribution) => multiset(c.nodes), cs, ds);
    BagSumIsOrderFree((c: Contribution) => multiset(c.edges), cs, ds);
  }

  ghost predicate SameNodes(a: seq<Member>, b: seq<Member>) {
    multiset(Nodes(a)) == multiset(Nodes(b))
  }

  lemma HasNode(ms: seq<Member>, n: ContributedNode)
    ensures n in Nodes(ms) <==> exists m :: m in ms && m.node == n
  {
    if n in Nodes(ms) {
      var i :| 0 <= i < |ms| && Nodes(ms)[i] == n;
      assert ms[i] in ms;
    }
    forall m | m in ms && m.node == n
      ensures n in Nodes(ms)
    {
      var i :| 0 <= i < |ms| && ms[i] == m;
      assert Nodes(ms)[i] == n;
    }
  }

  lemma SameMembership(a: seq<Member>, b: seq<Member>, n: ContributedNode)
    requires SameNodes(a, b)
    ensures (exists m :: m in a && m.node == n) <==> (exists m :: m in b && m.node == n)
  {
    HasNode(a, n);
    HasNode(b, n);
    SameElements(Nodes(a), Nodes(b));
  }

  lemma SameKeys(a: seq<Member>, b: seq<Member>)
    requires SameNodes(a, b)
    ensures KeysOf(a) == KeysOf(b)
  {
    hide GroupKey;
    forall m | m in a
      ensures GroupKey(m.node) in KeysOf(b)
    {
      SameMembership(a, b, m.node);
    }
    forall m | m in b
      ensures GroupKey(m.node) in KeysOf(a)
    {
      SameMembership(a, b, m.node);
    }
  }

  lemma SameBest(a: seq<Member>, b: seq<Member>, k: string)
    requires SameNodes(a, b) && RanksApart(Nodes(ByKey(a, k)))
    ensures Best(a, k) == Best(b, k)
  {
    hide GroupKey, Rank, ByKey, Best, RanksApart, BestFirst;
    BestIsARearrangement(a, k);
    BestIsARearrangement(b, k);
    assert multiset(Nodes(ByKey(a, k))) == multiset(Nodes(ByKey(b, k))) by {
      forall x
        ensures multiset(Nodes(ByKey(a, k)))[x] == multiset(Nodes(ByKey(b, k)))[x]
      {
        GroupBag(a, k, x);
        GroupBag(b, k, x);
      }
    }
    BestMembers(a, k);
    BestMembers(b, k);
    RanksApartIsOrderFree(Nodes(ByKey(a, k)), Best(a, k));
    BestFirstIsUnique(Best(a, k), Best(b, k));
  }

  lemma {:induction false} SameTable(derive: string -> NodeId, a: seq<Member>, b: seq<Member>, order: seq<string>, maxNodes: nat)
    requires forall k :: Best(a, k) == Best(b, k)
    ensures TableOf(derive, a, order, maxNodes) == TableOf(derive, b, order, maxNodes)
  {
    hide MergedNode;
    if order != [] {
      SameTable(derive, a, b, order[..|order| - 1], maxNodes);
    }
  }

  lemma SameNames(a: seq<Member>, b: seq<Member>)
    requires SameNodes(a, b)
    ensures RefsOf(a) <= RefsOf(b)
  {
    forall m | m in a
      ensures m.node.ref in RefsOf(b)
    {
      SameMembership(a, b, m.node);
    }
  }

  lemma SameRefs(a: seq<Member>, b: seq<Member>, ids: map<string, NodeId>, refs: map<string, NodeId>)
    requires SameNodes(a, b) && RefsOk(a, ids, refs)
    ensures RefsOk(b, ids, refs)
  {
    hide GroupKey;
    assert RefsOf(a) == RefsOf(b) by {
      SameNames(a, b);
      SameNames(b, a);
    }
    forall r | r in refs && r !in ids
      ensures Declares(b, ids, r, refs[r])
    {
      assert Declares(a, ids, r, refs[r]);
      var m :| m in a && m.node.ref == r && IdOf(ids, GroupKey(m.node)) == refs[r];
      SameMembership(a, b, m.node);
      var d :| d in b && d.node == m.node;
      DeclaredBy(b, ids, d);
    }
  }

  lemma {:induction false} ResolvedKeys(refs: map<string, NodeId>, es: seq<ContributedEdge>, key: EdgeKey)
    ensures key in EdgeKeys(Resolved(refs, es)) <==>
            exists e :: e in es && e.fromRef in refs && e.toRef in refs &&
                        KeyOf(EdgeBetween(refs[e.fromRef], refs[e.toRef], e)) == key
  {
    hide KeyOf, EdgeBetween;
    if es != [] {
      var n := |es| - 1;
      var e := es[n];
      ResolvedKeys(refs, es[..n], key);
      assert es == es[..n] + [e];
      if e.fromRef in refs && e.toRef in refs {
        var r := EdgeBetween(refs[e.fromRef], refs[e.toRef], e);
        assert EdgeKeys(Resolved(refs, es)) == EdgeKeys(Resolved(refs, es[..n])) + {KeyOf(r)};
      }
    }
  }

  lemma SameEdgeKeys(refs: map<string, NodeId>, a: seq<ContributedEdge>, b: seq<ContributedEdge>)
    requires multiset(a) == multiset(b)
    ensures EdgeKeys(Resolved(refs, a)) == EdgeKeys(Resolved(refs, b))
  {
    hide KeyOf, EdgeBetween, Resolved;
    SameElements(a, b);
    forall key
      ensures key in EdgeKeys(Resolved(refs, a)) <==> key in EdgeKeys(Resolved(refs, b))
    {
      ResolvedKeys(refs, a, key);
      ResolvedKeys(refs, b, key);
    }
  }

  lemma {:induction false} ResolvedCount(refs: map<string, NodeId>, es: seq<ContributedEdge>)
    ensures |Resolved(refs, es)| <= |es|
  {
    if es != [] {
      ResolvedCount(refs, es[..|es| - 1]);
    }
  }

  lemma AllEdgeKeys(refs: map<string, NodeId>, es: seq<ContributedEdge>, n: nat)
    requires |es| <= n
    ensures EdgeKeys(Dedup(Take(Resolved(refs, es), n))) == EdgeKeys(Resolved(refs, es))
  {
    ResolvedCount(refs, es);
    DedupFacts(Resolved(refs, es));
  }

  // When each group ranks its members strictly and no bound is hit, the contributions may
  // come in any order: the same nodes and the same edge keys result.
  lemma MergeIsOrderIndependent(derive: string -> NodeId, cs: seq<Contribution>, ds: seq<Contribution>, bounds: Bounds,
                                g: MergedGraph, h: MergedGraph)
    requires multiset(cs) == multiset(ds)
    requires IsMerge(derive, cs, bounds, g) && IsMerge(derive, ds, bounds, h)
    requires FewGroups(cs, bounds) && |FlatEdges(cs)| <= bounds.maxEdges
    requires ConfidencesDistinct(cs) && Unambiguous(derive, cs, bounds)
    ensures g.nodes == h.nodes && EdgeKeys(g.edges) == EdgeKeys(h.edges)
  {
    hide GroupKey, Rank, KeyOf, TableOf, Resolved, Dedup, Take, ByVisitOrder, RefsOk, RefsUnambiguous, TableConflicts, Best, RanksApart;
    var a, b := FlatMembers(cs), FlatMembers(ds);
    SameBags(cs, ds);
    SameKeys(a, b);
    IngestsEverything(cs, bounds.maxNodes);
    IngestsEverything(ds, bounds.maxNodes);
    var o1, r1 :| MergedAs(derive, cs, bounds, o1, r1, g);
    var o2, r2 :| MergedAs(derive, ds, bounds, o2, r2, h);
    KeyOrderIsUnique(KeysOf(a), o1, o2);
    forall k
      ensures Best(a, k) == Best(b, k)
    {
      SameBest(a, b, k);
    }
    SameTable(derive, a, b, o1, bounds.maxNodes);
    KeyOrderIsUnique(KeysOf(a), o1, KeyOrder(KeysOf(a)));
    var ids := TableOf(derive, a, o1, bounds.maxNodes).ids;
    VisitedRefs(a, ids, r1);
    VisitedRefs(b, ids, r2);
    SameRefs(b, a, ids, r2);
    TablesAgree(a, ids, r1, r2);
    assert |FlatEdges(cs)| == |multiset(FlatEdges(cs))| == |multiset(FlatEdges(ds))| == |FlatEdges(ds)|;
    AllEdgeKeys(r1, FlatEdges(cs), bounds.maxEdges);
    AllEdgeKeys(r1, FlatEdges(ds), bounds.maxEdges);
    SameEdgeKeys(r1, FlatEdges(cs), FlatEdges(ds));
  }
}
