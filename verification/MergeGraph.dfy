// merge_contributions, to one graph.

module MergeGraph {
  import opened Types
  import opened Sorting
  import opened Ordering
  import opened Merge

  // A contributed node and where it came from.
  datatype Member = Member(node: ContributedNode, ci: nat, idx: nat)

  datatype MergedGraph = MergedGraph(
    nodes: map<NodeId, Node>,
    edges: seq<Edge>,
    conflicts: multiset<string>,
    mergedCount: nat)

  // ---- Ingestion ------------------------------------------------------------------

  function MembersOf(c: Contribution, ci: nat): (r: seq<Member>)
    ensures |r| == |c.nodes|
    ensures forall i :: 0 <= i < |r| ==> r[i] == Member(c.nodes[i], ci, i)
  {
    seq(|c.nodes|, i requires 0 <= i < |c.nodes| => Member(c.nodes[i], ci, i))
  }

  function FlatMembers(cs: seq<Contribution>): seq<Member> {
    if cs == [] then [] else FlatMembers(cs[..|cs| - 1]) + MembersOf(cs[|cs| - 1], |cs| - 1)
  }

  function KeysOf(ms: seq<Member>): set<string> {
    set m | m in ms :: GroupKey(m.node)
  }

  function ByKey(ms: seq<Member>, k: string): seq<Member> {
    if ms == [] then []
    else
      var n := |ms| - 1;
      ByKey(ms[..n], k) + if GroupKey(ms[n].node) == k then [ms[n]] else []
  }

  // Adds the members of one contribution until there are more groups than the bound allows;
  // the member that exceeds it is still added.
  function TakeMembers(ms: seq<Member>, more: seq<Member>, maxNodes: nat): seq<Member>
    decreases |more|
  {
    if more == [] then ms
    else
      var next := ms + [more[0]];
      if |KeysOf(next)| > maxNodes then next else TakeMembers(next, more[1..], maxNodes)
  }

  // Reaching the bound ends a contribution, not the ingestion.
  function Ingested(cs: seq<Contribution>, maxNodes: nat): seq<Member> {
    if cs == [] then []
    else TakeMembers(Ingested(cs[..|cs| - 1], maxNodes), MembersOf(cs[|cs| - 1], |cs| - 1), maxNodes)
  }

  lemma {:induction false} TakeAll(ms: seq<Member>, more: seq<Member>, maxNodes: nat)
    requires |KeysOf(ms + more)| <= maxNodes
    ensures TakeMembers(ms, more, maxNodes) == ms + more
    decreases |more|
  {
    if more == [] {
      assert ms + more == ms;
    } else {
      var next := ms + [more[0]];
      assert next + more[1..] == ms + more;
      KeysGrow(next, more[1..]);
      TakeAll(next, more[1..], maxNodes);
    }
  }

  lemma KeysGrow(ms: seq<Member>, more: seq<Member>)
    ensures KeysOf(ms) <= KeysOf(ms + more) && |KeysOf(ms)| <= |KeysOf(ms + more)|
  {
    assert forall m :: m in ms ==> m in ms + more;
    assert |KeysOf(ms + more)| == |KeysOf(ms)| + |KeysOf(ms + more) - KeysOf(ms)|;
  }

  // With few enough groups nothing is left out.
  lemma {:induction false} IngestsEverything(cs: seq<Contribution>, maxNodes: nat)
    requires |KeysOf(FlatMembers(cs))| <= maxNodes
    ensures Ingested(cs, maxNodes) == FlatMembers(cs)
  {
    if cs != [] {
      var n := |cs| - 1;
      KeysGrow(FlatMembers(cs[..n]), MembersOf(cs[n], n));
      IngestsEverything(cs[..n], maxNodes);
      TakeAll(FlatMembers(cs[..n]), MembersOf(cs[n], n), maxNodes);
    }
  }

  ghost predicate GroupsOk(groups: map<string, seq<Member>>, ms: seq<Member>) {
    groups.Keys == KeysOf(ms) && forall k :: k in groups ==> groups[k] == ByKey(ms, k)
  }

  lemma {:induction false} NoSuchKey(ms: seq<Member>, k: string)
    requires k !in KeysOf(ms)
    ensures ByKey(ms, k) == []
  {
    hide GroupKey;
    if ms != [] {
      var n := |ms| - 1;
      assert ms[n] in ms;
      assert forall m :: m in ms[..n] ==> m in ms;
      NoSuchKey(ms[..n], k);
    }
  }

  lemma JoinGroup(groups: map<string, seq<Member>>, ms: seq<Member>, m: Member)
    requires GroupsOk(groups, ms)
    ensures var k := GroupKey(m.node);
            GroupsOk(groups[k := (if k in groups then groups[k] else []) + [m]], ms + [m])
  {
    hide GroupKey;
    var k := GroupKey(m.node);
    assert (ms + [m])[..|ms|] == ms;
    assert KeysOf(ms + [m]) == KeysOf(ms) + {k};
    if k !in groups {
      NoSuchKey(ms, k);
    }
  }

  lemma NoGroups()
    ensures GroupsOk(map[], [])
  {
  }

  lemma GroupCount(groups: map<string, seq<Member>>, ms: seq<Member>)
    requires GroupsOk(groups, ms)
    ensures |groups| == |KeysOf(ms)|
  {
    assert |groups| == |groups.Keys|;
  }

  method Ingest(cs: seq<Contribution>, maxNodes: nat) returns (groups: map<string, seq<Member>>)
    ensures GroupsOk(groups, Ingested(cs, maxNodes))
  {
    hide GroupKey, GroupsOk, KeysOf;
    NoGroups();
    groups := map[];
    ghost var ms: seq<Member> := [];
    for ci := 0 to |cs|
      invariant ms == Ingested(cs[..ci], maxNodes) && GroupsOk(groups, ms)
    {
      var c := cs[ci];
      assert cs[..ci + 1][..ci] == cs[..ci];
      ghost var all := MembersOf(c, ci);
      assert all[0..] == all;
      var i := 0;
      while i < |c.nodes|
        invariant i <= |c.nodes| && GroupsOk(groups, ms)
        invariant TakeMembers(ms, all[i..], maxNodes) == Ingested(cs[..ci + 1], maxNodes)
      {
        var m := Member(c.nodes[i], ci, i);
        var k := GroupKey(m.node);
        assert all[i..][0] == m && all[i..][1..] == all[i + 1..];
        JoinGroup(groups, ms, m);
        groups := groups[k := (if k in groups then groups[k] else []) + [m]];
        ms := ms + [m];
        i := i + 1;
        GroupCount(groups, ms);
        if |groups| > maxNodes {
          break;
        }
      }
    }
    assert cs[..|cs|] == cs;
  }

  // ---- Best-first members ------------------------------------------------------------

  // Confidence first, then contribution, then position.
  predicate MemberLess(a: Member, b: Member) {
    var ra, rb := Rank(a.node), Rank(b.node);
    if ra != rb then ra > rb
    else if a.ci != b.ci then a.ci < b.ci
    else a.idx < b.idx
  }

  function Nodes(ms: seq<Member>): (r: seq<ContributedNode>)
    ensures |r| == |ms|
    ensures forall i :: 0 <= i < |ms| ==> r[i] == ms[i].node
  {
    seq(|ms|, i requires 0 <= i < |ms| => ms[i].node)
  }

  function Best(ms: seq<Member>, k: string): seq<ContributedNode> {
    Nodes(Sort(MemberLess, ByKey(ms, k)))
  }

  lemma {:induction false} ByKeyMembers(ms: seq<Member>, k: string, m: Member)
    ensures m in ByKey(ms, k) <==> m in ms && GroupKey(m.node) == k
  {
    hide GroupKey;
    if ms != [] {
      var n := |ms| - 1;
      ByKeyMembers(ms[..n], k, m);
      assert ms == ms[..n] + [ms[n]];
    }
  }

  // The members of a group, the most confident first.
  lemma BestMembers(ms: seq<Member>, k: string)
    ensures BestFirst(Best(ms, k))
    ensures forall n :: n in Best(ms, k) <==> exists m :: m in ms && m.node == n && GroupKey(n) == k
    ensures k in KeysOf(ms) ==> Best(ms, k) != []
  {
    hide Rank, GroupKey, MemberLess, BestFirst;
    var sorted := Sort(MemberLess, ByKey(ms, k));
    SameElements(ByKey(ms, k), sorted);
    SortedByRank(ByKey(ms, k));
    forall m
      ensures m in sorted <==> m in ms && GroupKey(m.node) == k
    {
      ByKeyMembers(ms, k, m);
    }
    forall m | m in ms && GroupKey(m.node) == k
      ensures m.node in Best(ms, k)
    {
      var i :| 0 <= i < |sorted| && sorted[i] == m;
      assert Best(ms, k)[i] == m.node;
    }
    forall n | n in Best(ms, k)
      ensures exists m :: m in ms && m.node == n && GroupKey(n) == k
    {
      var i :| 0 <= i < |sorted| && Best(ms, k)[i] == n;
      assert sorted[i] in sorted && sorted[i].node == n;
    }
  }

  lemma SortedByRank(group: seq<Member>)
    ensures BestFirst(Nodes(Sort(MemberLess, group)))
  {
    SortSorts(MemberLess, group);
    var s := Sort(MemberLess, group);
    forall i, j | 0 <= i < j < |s|
      ensures Rank(Nodes(s)[i]) >= Rank(Nodes(s)[j])
    {
      assert !MemberLess(s[j], s[i]);
    }
  }

  // ---- The node table --------------------------------------------------------------------

  datatype NodeTable = NodeTable(nodes: map<NodeId, Node>, ids: map<string, NodeId>)

  // The groups in key order; once the bound is reached, further groups are dropped.
  function TableOf(derive: string -> NodeId, ms: seq<Member>, order: seq<string>, maxNodes: nat): NodeTable {
    if order == [] then NodeTable(map[], map[])
    else
      var n := |order| - 1;
      var k := order[n];
      var t := TableOf(derive, ms, order[..n], maxNodes);
      if |t.nodes| >= maxNodes || Best(ms, k) == [] then t
      else
        var id := derive(k);
        NodeTable(if id in t.nodes then t.nodes else t.nodes[id := MergedNode(id, Best(ms, k))], t.ids[k := id])
  }

  // The conflicts of the groups that are kept.
  ghost function TableConflicts(derive: string -> NodeId, ms: seq<Member>, order: seq<string>, maxNodes: nat): multiset<string> {
    if order == [] then multiset{}
    else
      var n := |order| - 1;
      TableConflicts(derive, ms, order[..n], maxNodes) +
      if |TableOf(derive, ms, order[..n], maxNodes).nodes| >= maxNodes || Best(ms, order[n]) == [] then multiset{}
      else Conflicts(Best(ms, order[n]))
  }

  method BuildNodes(derive: string -> NodeId, groups: map<string, seq<Member>>, ghost ms: seq<Member>,
                    order: seq<string>, maxNodes: nat)
    returns (nodes: map<NodeId, Node>, ids: map<string, NodeId>, conflicts: multiset<string>)
    requires GroupsOk(groups, ms) && forall k :: k in order ==> k in groups
    ensures NodeTable(nodes, ids) == TableOf(derive, ms, order, maxNodes)
    ensures conflicts == TableConflicts(derive, ms, order, maxNodes)
  {
    hide MergedNode, Rank, GroupKey, EntryCount, MergedProperties, Conflicts;
    nodes, ids, conflicts := map[], map[], multiset{};
    for i := 0 to |order|
      invariant NodeTable(nodes, ids) == TableOf(derive, ms, order[..i], maxNodes)
      invariant conflicts == TableConflicts(derive, ms, order[..i], maxNodes)
    {
      var k := order[i];
      assert order[..i + 1][..i] == order[..i];
      assert k in order;
      BestMembers(ms, k);
      var members := Nodes(Sort(MemberLess, groups[k]));
      if |nodes| >= maxNodes {
        continue;
      }
      var id := derive(k);
      var node, more := AssembleNode(id, members);
      conflicts := conflicts + more;
      ids := ids[k := id];
      if id !in nodes {
        nodes := nodes[id := node];
      }
    }
    assert order[..|order|] == order;
  }

  // Every node of the table is the merged node of a kept group.
  ghost predicate TableOk(derive: string -> NodeId, ms: seq<Member>, order: seq<string>, t: NodeTable) {
    && (forall k :: k in t.ids ==> k in order && Best(ms, k) != [] && t.ids[k] == derive(k) && t.ids[k] in t.nodes)
    && (forall id :: id in t.nodes ==> HasGroup(ms, t, id))
  }

  ghost predicate HasGroup(ms: seq<Member>, t: NodeTable, id: NodeId)
    requires id in t.nodes
  {
    exists k :: k in t.ids && t.ids[k] == id && Best(ms, k) != [] && t.nodes[id] == MergedNode(id, Best(ms, k))
  }

  lemma AddGroup(derive: string -> NodeId, ms: seq<Member>, order: seq<string>, t: NodeTable, k: string)
    requires TableOk(derive, ms, order, t) && Best(ms, k) != [] && k !in order
    ensures var id := derive(k);
            TableOk(derive, ms, order + [k],
                    NodeTable(if id in t.nodes then t.nodes else t.nodes[id := MergedNode(id, Best(ms, k))], t.ids[k := id]))
  {
    hide MergedNode, Best;
    var id := derive(k);
    var u := NodeTable(if id in t.nodes then t.nodes else t.nodes[id := MergedNode(id, Best(ms, k))], t.ids[k := id]);
    forall x | x in u.nodes
      ensures HasGroup(ms, u, x)
    {
      if x in t.nodes {
        assert HasGroup(ms, t, x);
        var g :| g in t.ids && t.ids[g] == x && Best(ms, g) != [] && t.nodes[x] == MergedNode(x, Best(ms, g));
        assert g in u.ids && u.ids[g] == x;
      } else {
        assert k in u.ids && u.ids[k] == x;
      }
    }
  }

  lemma MoreKeys(derive: string -> NodeId, ms: seq<Member>, order: seq<string>, t: NodeTable, k: string)
    requires TableOk(derive, ms, order, t)
    ensures TableOk(derive, ms, order + [k], t)
  {
  }

  lemma {:induction false} TableFacts(derive: string -> NodeId, ms: seq<Member>, order: seq<string>, maxNodes: nat)
    requires AllDistinct(order)
    ensures TableOk(derive, ms, order, TableOf(derive, ms, order, maxNodes))
    ensures |TableOf(derive, ms, order, maxNodes).nodes| <= maxNodes
    ensures |TableOf(derive, ms, order, maxNodes).nodes| <= |order|
  {
    hide MergedNode, Best, TableOk;
    if order == [] {
      EmptyTable(derive, ms);
    } else {
      var n := |order| - 1;
      var k := order[n];
      var t := TableOf(derive, ms, order[..n], maxNodes);
      assert order == order[..n] + [k];
      TableFacts(derive, ms, order[..n], maxNodes);
      if |t.nodes| >= maxNodes || Best(ms, k) == [] {
        MoreKeys(derive, ms, order[..n], t, k);
      } else {
        AddGroup(derive, ms, order[..n], t, k);
        assert derive(k) !in t.nodes ==>
            t.nodes[derive(k) := MergedNode(derive(k), Best(ms, k))].Keys == t.nodes.Keys + {derive(k)};
      }
    }
  }

  lemma EmptyTable(derive: string -> NodeId, ms: seq<Member>)
    ensures TableOk(derive, ms, [], NodeTable(map[], map[]))
  {
  }

  // Within the bound every group becomes a node.
  lemma {:induction false} TableComplete(derive: string -> NodeId, ms: seq<Member>, order: seq<string>, maxNodes: nat)
    requires AllDistinct(order) && |order| <= maxNodes && forall k :: k in order ==> Best(ms, k) != []
    ensures forall k :: k in order ==> k in TableOf(derive, ms, order, maxNodes).ids
  {
    hide MergedNode, Best, TableOk;
    if order != [] {
      var n := |order| - 1;
      assert order == order[..n] + [order[n]];
      TableFacts(derive, ms, order[..n], maxNodes);
      TableComplete(derive, ms, order[..n], maxNodes);
      assert order[n] in order;
    }
  }

  // ---- References ------------------------------------------------------------------------

  // A dropped group stands for the null id.
  function IdOf(ids: map<string, NodeId>, k: string): NodeId {
    if k in ids then ids[k] else NULL_NODE_ID
  }

  // The references with a meaning: the keys of kept groups and whatever a member declares.
  function KnownRefs(ms: seq<Member>, ids: map<string, NodeId>): set<string> {
    ids.Keys + RefsOf(ms)
  }

  function RefsOf(ms: seq<Member>): set<string> {
    set m | m in ms :: m.node.ref
  }

  // Earlier meanings stay.
  function Emplace(refs: map<string, NodeId>, names: set<string>, id: NodeId): map<string, NodeId> {
    (map r | r in names :: id) + refs
  }

  // The reference table when the groups are visited in this order.
  function RefTable(ms: seq<Member>, ids: map<string, NodeId>, visits: seq<string>): map<string, NodeId> {
    if visits == [] then ids
    else
      var n := |visits| - 1;
      Emplace(RefTable(ms, ids, visits[..n]), RefsOf(ByKey(ms, visits[n])), IdOf(ids, visits[n]))
  }

  // Every group once, in any order.
  ghost predicate IsVisitOrder(ms: seq<Member>, visits: seq<string>) {
    AllDistinct(visits) && forall k :: k in visits <==> k in KeysOf(ms)
  }

  // One order of the groups decides every reference.
  ghost predicate ByVisitOrder(ms: seq<Member>, ids: map<string, NodeId>, refs: map<string, NodeId>) {
    exists visits :: IsVisitOrder(ms, visits) && refs == RefTable(ms, ids, visits)
  }

  // Visits the groups in the order of the hash map.
  method ResolveRefs(groups: map<string, seq<Member>>, ghost ms: seq<Member>, ids: map<string, NodeId>)
    returns (refs: map<string, NodeId>)
    requires GroupsOk(groups, ms)
    ensures ByVisitOrder(ms, ids, refs)
  {
    hide ByKey, GroupKey;
    refs := ids;
    ghost var visits: seq<string> := [];
    var left := groups.Keys;
    while left != {}
      invariant left <= groups.Keys
      invariant AllDistinct(visits) && forall k :: k in visits <==> k in groups && k !in left
      invariant refs == RefTable(ms, ids, visits)
      decreases left
    {
      var k :| k in left;
      left := left - {k};
      refs := AddGroupRefs(refs, groups[k], IdOf(ids, k));
      assert (visits + [k])[..|visits|] == visits;
      visits := visits + [k];
    }
  }

  method AddGroupRefs(before: map<string, NodeId>, members: seq<Member>, id: NodeId) returns (refs: map<string, NodeId>)
    ensures refs == Emplace(before, RefsOf(members), id)
  {
    hide Emplace;
    refs := before;
    assert RefsOf(members[..0]) == {};
    NothingToEmplace(before, id);
    for i := 0 to |members|
      invariant refs == Emplace(before, RefsOf(members[..i]), id)
    {
      var r := members[i].node.ref;
      assert members[..i + 1] == members[..i] + [members[i]];
      assert RefsOf(members[..i + 1]) == RefsOf(members[..i]) + {r};
      EmplaceOne(before, RefsOf(members[..i]), r, id);
      if r !in refs {
        refs := refs[r := id];
      }
    }
    assert members[..|members|] == members;
  }

  lemma NothingToEmplace(before: map<string, NodeId>, id: NodeId)
    ensures Emplace(before, {}, id) == before
  {
  }

  lemma EmplaceOne(before: map<string, NodeId>, names: set<string>, r: string, id: NodeId)
    ensures var refs := Emplace(before, names, id);
            Emplace(before, names + {r}, id) == if r in refs then refs else refs[r := id]
  {
  }

  ghost predicate DeclaredIn(ms: seq<Member>, k: string, r: string) {
    exists m :: m in ms && m.node.ref == r && GroupKey(m.node) == k
  }

  // The first group visited that declares r.
  ghost predicate FirstDeclarer(ms: seq<Member>, visits: seq<string>, r: string, i: int) {
    && 0 <= i < |visits| && DeclaredIn(ms, visits[i], r)
    && forall j :: 0 <= j < i ==> !DeclaredIn(ms, visits[j], r)
  }

  lemma GroupRefs(ms: seq<Member>, k: string, r: string)
    ensures r in RefsOf(ByKey(ms, k)) <==> DeclaredIn(ms, k, r)
  {
    hide ByKey, GroupKey;
    forall m
      ensures m in ByKey(ms, k) <==> m in ms && GroupKey(m.node) == k
    {
      ByKeyMembers(ms, k, m);
    }
  }

  // Keys of kept groups mean their nodes; any other reference means the first group visited that
  // declares it.
  lemma {:induction false} FirstDeclarerDecides(ms: seq<Member>, ids: map<string, NodeId>, visits: seq<string>, r: string)
    ensures var refs := RefTable(ms, ids, visits);
            && (r in ids ==> r in refs && refs[r] == ids[r])
            && (r !in ids ==> (r in refs <==> exists i :: FirstDeclarer(ms, visits, r, i)))
            && (r !in ids ==> forall i :: FirstDeclarer(ms, visits, r, i) ==> refs[r] == IdOf(ids, visits[i]))
  {
    hide ByKey, RefsOf, DeclaredIn;
    if visits != [] {
      var n := |visits| - 1;
      var p := visits[..n];
      FirstDeclarerDecides(ms, ids, p, r);
      GroupRefs(ms, visits[n], r);
      if i :| FirstDeclarer(ms, p, r, i) {
        assert FirstDeclarer(ms, visits, r, i);
      } else {
        NobodyDeclares(ms, p, r);
        assert FirstDeclarer(ms, visits, r, n) <==> DeclaredIn(ms, visits[n], r);
      }
    }
  }

  lemma {:induction false} NobodyDeclares(ms: seq<Member>, visits: seq<string>, r: string)
    requires forall i :: !FirstDeclarer(ms, visits, r, i)
    ensures forall j :: 0 <= j < |visits| ==> !DeclaredIn(ms, visits[j], r)
  {
    hide DeclaredIn;
    if visits != [] {
      var n := |visits| - 1;
      forall i
        ensures !FirstDeclarer(ms, visits[..n], r, i)
      {
        assert FirstDeclarer(ms, visits[..n], r, i) ==> FirstDeclarer(ms, visits, r, i);
      }
      NobodyDeclares(ms, visits[..n], r);
      assert forall j :: 0 <= j < n ==> visits[..n][j] == visits[j];
      assert !FirstDeclarer(ms, visits, r, n);
    }
  }

  ghost predicate Declares(ms: seq<Member>, ids: map<string, NodeId>, r: string, id: NodeId) {
    exists m :: m in ms && m.node.ref == r && IdOf(ids, GroupKey(m.node)) == id
  }

  lemma DeclaredBy(ms: seq<Member>, ids: map<string, NodeId>, m: Member)
    requires m in ms
    ensures Declares(ms, ids, m.node.ref, IdOf(ids, GroupKey(m.node)))
  {
  }

  // What holds in every order: any other reference means some group that declares it.
  ghost predicate RefsOk(ms: seq<Member>, ids: map<string, NodeId>, refs: map<string, NodeId>) {
    && refs.Keys == KnownRefs(ms, ids)
    && (forall k :: k in ids ==> refs[k] == ids[k])
    && (forall r :: r in refs && r !in ids ==> Declares(ms, ids, r, refs[r]))
  }

  lemma VisitedRefs(ms: seq<Member>, ids: map<string, NodeId>, refs: map<string, NodeId>)
    requires ByVisitOrder(ms, ids, refs)
    ensures RefsOk(ms, ids, refs)
  {
    hide GroupKey, RefTable;
    var visits :| IsVisitOrder(ms, visits) && refs == RefTable(ms, ids, visits);
    forall r
      ensures r in refs <==> r in KnownRefs(ms, ids)
      ensures r in ids ==> refs[r] == ids[r]
      ensures r in refs && r !in ids ==> Declares(ms, ids, r, refs[r])
    {
      FirstDeclarerDecides(ms, ids, visits, r);
      if r in refs && r !in ids {
        var i :| FirstDeclarer(ms, visits, r, i);
        var m :| m in ms && m.node.ref == r && GroupKey(m.node) == visits[i];
        DeclaredBy(ms, ids, m);
      } else if r in RefsOf(ms) && r !in ids {
        var m :| m in ms && m.node.ref == r;
        assert GroupKey(m.node) in visits && DeclaredIn(ms, GroupKey(m.node), r);
        NobodyDeclares(ms, visits, r);
        assert false;
      }
    }
  }

  // Any member that declares a reference decides it in some order: that in which its group comes first.
  lemma AnyDeclarerDecides(ms: seq<Member>, ids: map<string, NodeId>, m: Member)
    requires m in ms && m.node.ref !in ids
    ensures exists refs :: ByVisitOrder(ms, ids, refs) && m.node.ref in refs && refs[m.node.ref] == IdOf(ids, GroupKey(m.node))
  {
    hide GroupKey, RefTable;
    var k := GroupKey(m.node);
    var rest := KeyOrder(KeysOf(ms) - {k});
    OrderedIsDistinct(rest);
    assert forall i :: 0 <= i < |rest| ==> rest[i] in rest;
    var visits := [k] + rest;
    FirstDeclarerDecides(ms, ids, visits, m.node.ref);
    assert FirstDeclarer(ms, visits, m.node.ref, 0);
    assert ByVisitOrder(ms, ids, RefTable(ms, ids, visits));
  }

  // ---- Edges ---------------------------------------------------------------------------------

  function FlatEdges(cs: seq<Contribution>): seq<ContributedEdge> {
    if cs == [] then [] else FlatEdges(cs[..|cs| - 1]) + cs[|cs| - 1].edges
  }

  function EdgeBetween(s: NodeId, t: NodeId, ce: ContributedEdge): Edge {
    Edge(s, t, ce.edgeType, ce.direction, ce.provenance, ce.confidence, ce.width, ce.pcieGeneration,
         ce.bandwidth, ce.latency, ce.hopCount, None, true, ce.peerCapability, 0, ce.properties)
  }

  // Edges with an unknown reference are dropped.
  function Resolved(refs: map<string, NodeId>, es: seq<ContributedEdge>): seq<Edge> {
    if es == [] then []
    else
      var e := es[|es| - 1];
      Resolved(refs, es[..|es| - 1]) +
      if e.fromRef in refs && e.toRef in refs then [EdgeBetween(refs[e.fromRef], refs[e.toRef], e)] else []
  }

  function Take<T>(s: seq<T>, n: nat): seq<T> {
    if |s| <= n then s else s[..n]
  }

  lemma {:induction false} ResolvedJoins(refs: map<string, NodeId>, a: seq<ContributedEdge>, b: seq<ContributedEdge>)
    ensures Resolved(refs, a + b) == Resolved(refs, a) + Resolved(refs, b)
    decreases |b|
  {
    if b == [] {
      assert a + b == a;
    } else {
      var n := |b| - 1;
      assert (a + b)[..|a + b| - 1] == a + b[..n];
      ResolvedJoins(refs, a, b[..n]);
    }
  }

  lemma NextResolved(refs: map<string, NodeId>, es: seq<ContributedEdge>, e: ContributedEdge, n: nat)
    ensures var before := Take(Resolved(refs, es), n);
            Take(Resolved(refs, es + [e]), n) ==
            if e.fromRef in refs && e.toRef in refs && |before| < n
            then before + [EdgeBetween(refs[e.fromRef], refs[e.toRef], e)] else before
  {
    assert (es + [e])[..|es|] == es;
  }

  lemma FullStaysFull(refs: map<string, NodeId>, a: seq<ContributedEdge>, b: seq<ContributedEdge>, n: nat)
    requires |Take(Resolved(refs, a), n)| >= n
    ensures Take(Resolved(refs, a + b), n) == Take(Resolved(refs, a), n)
  {
    ResolvedJoins(refs, a, b);
  }

  // The edges of one contribution; the bound ends it.
  method ResolveMore(refs: map<string, NodeId>, ghost before: seq<ContributedEdge>, es: seq<ContributedEdge>,
                     sofar: seq<Edge>, maxEdges: nat)
    returns (edges: seq<Edge>)
    requires sofar == Take(Resolved(refs, before), maxEdges)
    ensures edges == Take(Resolved(refs, before + es), maxEdges)
  {
    hide Resolved, Take, EdgeBetween;
    edges := sofar;
    assert before + es[..0] == before;
    for i := 0 to |es|
      invariant edges == Take(Resolved(refs, before + es[..i]), maxEdges)
    {
      var e := es[i];
      assert before + es[..i + 1] == before + es[..i] + [e];
      NextResolved(refs, before + es[..i], e, maxEdges);
      if e.fromRef in refs && e.toRef in refs {
        if |edges| >= maxEdges {
          FullStaysFull(refs, before + es[..i], es[i..], maxEdges);
          assert before + es[..i] + es[i..] == before + es;
          return;
        }
        edges := edges + [EdgeBetween(refs[e.fromRef], refs[e.toRef], e)];
      }
    }
    assert es[..|es|] == es;
  }

  // A full list stays full, so later contributions add nothing.
  method ResolveEdges(cs: seq<Contribution>, refs: map<string, NodeId>, maxEdges: nat) returns (edges: seq<Edge>)
    ensures edges == Take(Resolved(refs, FlatEdges(cs)), maxEdges)
  {
    edges := [];
    for ci := 0 to |cs|
      invariant edges == Take(Resolved(refs, FlatEdges(cs[..ci])), maxEdges)
    {
      assert cs[..ci + 1][..ci] == cs[..ci];
      edges := ResolveMore(refs, FlatEdges(cs[..ci]), cs[ci].edges, edges, maxEdges);
    }
    assert cs[..|cs|] == cs;
  }

  function EdgeKeys(es: seq<Edge>): set<EdgeKey> {
    set e | e in es :: KeyOf(e)
  }

  // The first edge of every key.
  function Dedup(es: seq<Edge>): seq<Edge> {
    if es == [] then []
    else
      var kept := Dedup(es[..|es| - 1]);
      if KeyOf(es[|es| - 1]) in EdgeKeys(kept) then kept else kept + [es[|es| - 1]]
  }

  ghost predicate UniqueKeys(es: seq<Edge>) {
    forall i, j :: 0 <= i < j < |es| ==> KeyOf(es[i]) != KeyOf(es[j])
  }

  method Deduplicate(es: seq<Edge>) returns (kept: seq<Edge>)
    ensures kept == Dedup(es)
  {
    hide KeyOf;
    kept := [];
    var seen: set<EdgeKey> := {};
    for i := 0 to |es|
      invariant kept == Dedup(es[..i]) && seen == EdgeKeys(kept)
    {
      assert es[..i + 1][..i] == es[..i];
      var key := KeyOf(es[i]);
      if key !in seen {
        assert EdgeKeys(kept + [es[i]]) == EdgeKeys(kept) + {key};
        seen := seen + {key};
        kept := kept + [es[i]];
      }
    }
    assert es[..|es|] == es;
  }

  // Deduplication keeps one edge of every key and invents none.
  lemma {:induction false} DedupFacts(es: seq<Edge>)
    ensures UniqueKeys(Dedup(es)) && EdgeKeys(Dedup(es)) == EdgeKeys(es)
    ensures forall e :: e in Dedup(es) ==> e in es
  {
    hide KeyOf;
    if es != [] {
      var n := |es| - 1;
      DedupFacts(es[..n]);
      assert es == es[..n] + [es[n]];
      assert EdgeKeys(es) == EdgeKeys(es[..n]) + {KeyOf(es[n])};
      var kept := Dedup(es[..n]);
      assert EdgeKeys(kept + [es[n]]) == EdgeKeys(kept) + {KeyOf(es[n])};
      forall i | 0 <= i < |kept|
        ensures KeyOf(kept[i]) in EdgeKeys(kept)
      {
        assert kept[i] in kept;
      }
    }
  }

  // ---- merge_contributions ----------------------------------------------------------------------

  // One possible outcome: the order of the hash map shows only in refs.
  ghost predicate MergedAs(derive: string -> NodeId, cs: seq<Contribution>, bounds: Bounds, order: seq<string>,
                           refs: map<string, NodeId>, g: MergedGraph)
  {
    var ms := Ingested(cs, bounds.maxNodes);
    var t := TableOf(derive, ms, order, bounds.maxNodes);
    && IsKeyOrder(KeysOf(ms), order)
    && ByVisitOrder(ms, t.ids, refs)
    && g.nodes == t.nodes
    && g.edges == Dedup(Take(Resolved(refs, FlatEdges(cs)), bounds.maxEdges))
    && g.conflicts == TableConflicts(derive, ms, order, bounds.maxNodes)
    && g.mergedCount == |FlatMembers(cs)|
  }

  ghost predicate IsMerge(derive: string -> NodeId, cs: seq<Contribution>, bounds: Bounds, g: MergedGraph) {
    exists order, refs :: MergedAs(derive, cs, bounds, order, refs, g)
  }

  method MergeContributions(derive: string -> NodeId, cs: seq<Contribution>, bounds: Bounds) returns (g: MergedGraph)
    ensures IsMerge(derive, cs, bounds, g)
  {
    hide GroupKey, TableOf, GroupsOk, ByVisitOrder, Resolved, Dedup, Ingested, TableConflicts;
    var total := 0;
    for i := 0 to |cs|
      invariant total == |FlatMembers(cs[..i])|
    {
      assert cs[..i + 1][..i] == cs[..i];
      total := total + |cs[i].nodes|;
    }
    assert cs[..|cs|] == cs;
    ghost var ms := Ingested(cs, bounds.maxNodes);
    var groups := Ingest(cs, bounds.maxNodes);
    GroupKeys(groups, ms);
    var order := SortKeys(groups.Keys);
    var nodes, ids, conflicts := BuildNodes(derive, groups, ms, order, bounds.maxNodes);
    var refs := ResolveRefs(groups, ms, ids);
    var edges := ResolveEdges(cs, refs, bounds.maxEdges);
    var kept := Deduplicate(edges);
    g := MergedGraph(nodes, kept, conflicts, total);
    assert MergedAs(derive, cs, bounds, order, refs, g);
  }

  lemma GroupKeys(groups: map<string, seq<Member>>, ms: seq<Member>)
    requires GroupsOk(groups, ms)
    ensures groups.Keys == KeysOf(ms)
  {
  }
}
