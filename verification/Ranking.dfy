// Nodes in order of cost.

module Ranking {
  import opened Types
  import opened Sorting
  import opened Snapshots
  import opened Walks
  import opened Costs
  import opened Queues
  import opened Paths
  import opened Distances

  datatype RankEntry = RankEntry(id: NodeId, cost: real, breakdown: CostBreakdown, distance: DistanceBreakdown)

  datatype RankResult = RankResult(found: bool, source: NodeId, ranked: seq<RankEntry>, policyVersion: uint32)

  predicate RankLess(a: RankEntry, b: RankEntry) {
    a.cost < b.cost || (a.cost == b.cost && IdLess(a.id, b.id))
  }

  // c is the least cost of any walk from a to b, endpoint penalty included.
  ghost predicate IsBestCost(snap: Snapshot, w: CostWeights, a: NodeId, b: NodeId, c: real) {
    && a in snap.nodes && b in snap.nodes
    && exists v :: IsCheapestWalk(CostNetwork(snap, w), a, b, v) &&
                   c == WalkCost(CostNetwork(snap, w), v) + EndpointPenalty(snap.nodes[a], snap.nodes[b], w)
  }

  lemma BestCostIsUnique(snap: Snapshot, w: CostWeights, a: NodeId, b: NodeId, c: real, d: real)
    requires IsBestCost(snap, w, a, b, c) && IsBestCost(snap, w, a, b, d)
    ensures c == d
  {
  }

  ghost predicate Reachable(snap: Snapshot, w: CostWeights, a: NodeId, b: NodeId) {
    a in snap.nodes && b in snap.nodes && Connected(CostNetwork(snap, w), a, b)
  }

  // The breakdown is that of a cheapest path, the distance that of a shortest walk, which is no
  // longer.
  ghost predicate Backed(snap: Snapshot, w: CostWeights, source: NodeId, e: RankEntry, p: Path, segs: seq<PathSegment>) {
    && w.bandwidthRef != 0.0 && CheapestPath(snap, w, source, e.id, p) && p.totalCost == e.cost
    && PartsExplained(snap, p.segments, w, e.breakdown)
    && e.breakdown.numaPenalty == EndpointPenalty(snap.nodes[source], snap.nodes[e.id], w)
    && e.breakdown.total == PartSum(e.breakdown) == e.cost
    && MeasuredDistance(snap, w, source, e.id, segs, e.distance)
    && 1 <= e.distance.graphHops <= p.hopCount
  }

  // An entry tells the truth about its node.
  ghost predicate EntryOk(snap: Snapshot, w: CostWeights, source: NodeId, e: RankEntry) {
    && Reachable(snap, w, source, e.id)
    && IsBestCost(snap, w, source, e.id, e.cost)
    && e.cost >= 0.0 && Score(e.cost) <= e.distance.normalizedScore < 1.0
    && exists p, segs :: Backed(snap, w, source, e, p, segs)
  }

  lemma EntryIsBest(snap: Snapshot, w: CostWeights, source: NodeId, e: RankEntry)
    requires EntryOk(snap, w, source, e)
    ensures IsBestCost(snap, w, source, e.id, e.cost)
  {
  }

  // One candidate: its path, breakdown and distance; nothing when it cannot be reached.
  method RankOne(snap: Snapshot, source: NodeId, id: NodeId, w: CostWeights) returns (r: Outcome<Option<RankEntry>>)
    requires snap.Indexed() && NonNegative(CostNetwork(snap, w)) && w.numaPenalty >= 0.0 && w.bandwidthRef != 0.0
    requires source in snap.nodes && id in snap.nodes && id != source
    ensures snap.NoDangling() ==> r.Ok?
    ensures r.NotFound? ==> Dangles(snap, r.id)
    ensures r.Ok? ==> (r.value.Some? <==> Reachable(snap, w, source, id))
    ensures r.Ok? && r.value.Some? ==> r.value.value.id == id && EntryOk(snap, w, source, r.value.value)
  {
    hide CostNetwork, HopNetwork, EdgeTraversalCost, NonNegative, IsBottleneck, PartsExplained, MeasuredDistance;
    hide VisitsNoNodeTwice, Score;
    var p, _ := LowestCostPath(snap, source, id, w);
    if p.NotFound? {
      return NotFound(p.id);
    }
    if !p.value.found {
      return Ok(None);
    }
    KnownAlongCheapest(snap, w, source, id, p.value);
    var cb := BreakDown(snap, p.value, w);
    BreakdownAgreesWithSearch(snap, w, source, id, p.value, cb.value);
    var d, segs := DistanceBetween(snap, source, id, w);
    if d.NotFound? {
      return NotFound(d.id);
    }
    ReachableIsConnected(snap, w, source, id, StepsOf(p.value.segments));
    DistanceAgainstCheapestPath(snap, w, source, id, p.value, segs, d.value);
    ApartIsOneHop(snap, w, source, id, segs, d.value);
    var e := RankEntry(id, p.value.totalCost, cb.value, d.value);
    assert Backed(snap, w, source, e, p.value, segs);
    r := Ok(Some(e));
  }

  lemma KnownAlongCheapest(snap: Snapshot, w: CostWeights, from: NodeId, to: NodeId, p: Path)
    requires CheapestPath(snap, w, from, to, p)
    ensures AllKnown(snap, p.segments)
  {
    assert forall seg :: seg in p.segments ==> PricedSegment(snap, w, seg);
  }

  lemma ReachableIsConnected(snap: Snapshot, w: CostWeights, a: NodeId, b: NodeId, v: seq<Step>)
    requires IsWalk(CostNetwork(snap, w), a, b, v)
    ensures Connected(HopNetwork(snap.edges, false), a, b)
  {
    CostWalksAreHopWalks(snap, w, a, b, v);
  }

  lemma ApartIsOneHop(snap: Snapshot, w: CostWeights, a: NodeId, b: NodeId, segs: seq<PathSegment>, d: DistanceBreakdown)
    requires a != b && MeasuredDistance(snap, w, a, b, segs, d)
    ensures d.graphHops >= 1
  {
    assert segs == [] ==> StepsOf(segs) == [];
  }

  // ---- By type -----------------------------------------------------------------

  ghost predicate Candidate(snap: Snapshot, w: CostWeights, source: NodeId, t: NodeType, id: NodeId) {
    id in snap.nodes && id != source && snap.nodes[id].nodeType == t && Reachable(snap, w, source, id)
  }

  ghost predicate StrictlyRanked(ranked: seq<RankEntry>) {
    forall i, j :: 0 <= i < j < |ranked| ==> RankLess(ranked[i], ranked[j])
  }

  ghost predicate Lists(ranked: seq<RankEntry>, id: NodeId) {
    exists e :: e in ranked && e.id == id
  }

  // Exactly the reachable nodes of the type, cheapest first, ties by id; when a limit k cuts
  // the list, only entries that come after all listed ones are missing.
  ghost predicate RankingOk(snap: Snapshot, w: CostWeights, source: NodeId, t: NodeType, k: nat, ranked: seq<RankEntry>) {
    && StrictlyRanked(ranked)
    && (k > 0 ==> |ranked| <= k)
    && (forall e :: e in ranked ==> Candidate(snap, w, source, t, e.id) && EntryOk(snap, w, source, e))
    && (forall id :: Candidate(snap, w, source, t, id) && !Lists(ranked, id) ==>
                       k > 0 && |ranked| == k &&
                       forall e, c :: e in ranked && IsBestCost(snap, w, source, id, c) ==>
                                        EntryLess(QueueEntry(e.cost, e.id), QueueEntry(c, id)))
  }

  lemma RankLessIsTotal()
    ensures StrictWeakOrder(RankLess)
  {
  }

  ghost predicate DistinctIds(s: seq<RankEntry>) {
    forall i, j :: 0 <= i < j < |s| ==> s[i].id != s[j].id
  }

  // Different ids leave no ties.
  lemma {:induction false} SortKeepsDistinctIds(s: seq<RankEntry>)
    requires DistinctIds(s)
    ensures StrictlyRanked(Sort(RankLess, s))
  {
    RankLessIsTotal();
    SortSorts(RankLess, s);
    var r := Sort(RankLess, s);
    forall i, j | 0 <= i < j < |r|
      ensures RankLess(r[i], r[j])
    {
      assert !RankLess(r[j], r[i]);
      if r[i].id == r[j].id {
        DistinctSurvives(s, r, i, j);
      }
    }
  }

  // Two entries of the sorted list with one id would be one entry occurring twice.
  lemma DistinctSurvives(s: seq<RankEntry>, r: seq<RankEntry>, i: nat, j: nat)
    requires DistinctIds(s) && multiset(s) == multiset(r) && i < j < |r|
    ensures r[i].id != r[j].id
  {
    SameElements(s, r);
    assert AllDistinct(s);
    DistinctIsOrderFree(s, r);
    assert r[i] in s && r[j] in s;
  }

  method RankByType(snap: Snapshot, source: NodeId, t: NodeType, maxCandidates: nat, w: CostWeights)
    returns (r: Outcome<RankResult>)
    requires snap.Indexed() && NonNegative(CostNetwork(snap, w)) && w.numaPenalty >= 0.0 && w.bandwidthRef != 0.0
    ensures snap.NoDangling() ==> r.Ok?
    ensures r.NotFound? ==> Dangles(snap, r.id)
    ensures r.Ok? ==> RankingOk(snap, w, source, t, maxCandidates, r.value.ranked)
    ensures r.Ok? ==> (r.value.found <==> exists id :: Candidate(snap, w, source, t, id))
    ensures r.Ok? ==> r.value.source == source && r.value.policyVersion == w.version
  {
    hide CostNetwork, NonNegative, EntryOk, Reachable, Connected, RankedBut, RankingOk, RankLess;
    if source !in snap.nodes {
      NothingToRank(snap, w, source, t, maxCandidates);
      return Ok(RankResult(false, source, [], w.version));
    }
    var ranked: seq<RankEntry> := [];
    NothingRanked(snap, w, source, t);
    var left := snap.nodes.Keys;
    while left != {}
      invariant left <= snap.nodes.Keys && RankedBut(snap, w, source, t, left, ranked)
      decreases left
    {
      var id :| id in left;
      ghost var waiting := left;
      left := left - {id};
      assert left + {id} == waiting;
      if id == source || snap.nodes[id].nodeType != t {
        SkipRanked(snap, w, source, t, left, ranked, id);
        continue;
      }
      var one := RankOne(snap, source, id, w);
      if one.NotFound? {
        return NotFound(one.id);
      }
      if one.value.None? {
        SkipRanked(snap, w, source, t, left, ranked, id);
        continue;
      }
      AppendRanked(snap, w, source, t, left, ranked, one.value.value);
      ranked := ranked + [one.value.value];
    }
    var sorted := Sort(RankLess, ranked);
    SortRanked(snap, w, source, t, ranked);
    var cut := if maxCandidates > 0 && |sorted| > maxCandidates then sorted[..maxCandidates] else sorted;
    CutKeepsCheapest(snap, w, source, t, sorted, maxCandidates);
    r := Ok(RankResult(sorted != [], source, cut, w.version));
  }

  // Every candidate but those left is in the list, once.
  ghost predicate RankedBut(snap: Snapshot, w: CostWeights, source: NodeId, t: NodeType, left: set<NodeId>, ranked: seq<RankEntry>) {
    && DistinctIds(ranked)
    && (forall e :: e in ranked ==> e.id !in left && Candidate(snap, w, source, t, e.id) && EntryOk(snap, w, source, e))
    && (forall id :: Candidate(snap, w, source, t, id) && id !in left ==> Lists(ranked, id))
  }

  lemma NothingRanked(snap: Snapshot, w: CostWeights, source: NodeId, t: NodeType)
    ensures RankedBut(snap, w, source, t, snap.nodes.Keys, [])
  {
  }

  lemma NothingToRank(snap: Snapshot, w: CostWeights, source: NodeId, t: NodeType, k: nat)
    requires source !in snap.nodes
    ensures RankingOk(snap, w, source, t, k, []) && forall id :: !Candidate(snap, w, source, t, id)
  {
    SourceUnknown(snap, w, source);
  }

  lemma SkipRanked(snap: Snapshot, w: CostWeights, source: NodeId, t: NodeType, left: set<NodeId>, ranked: seq<RankEntry>, id: NodeId)
    requires RankedBut(snap, w, source, t, left + {id}, ranked) && !Candidate(snap, w, source, t, id)
    ensures RankedBut(snap, w, source, t, left, ranked)
  {
    hide Candidate, EntryOk;
  }

  lemma AppendRanked(snap: Snapshot, w: CostWeights, source: NodeId, t: NodeType, left: set<NodeId>, ranked: seq<RankEntry>, one: RankEntry)
    requires RankedBut(snap, w, source, t, left + {one.id}, ranked) && one.id !in left
    requires Candidate(snap, w, source, t, one.id) && EntryOk(snap, w, source, one)
    ensures RankedBut(snap, w, source, t, left, ranked + [one])
  {
    hide Candidate, EntryOk;
    assert one in ranked + [one];
    assert forall e :: e in ranked ==> e in ranked + [one];
  }

  lemma SortRanked(snap: Snapshot, w: CostWeights, source: NodeId, t: NodeType, ranked: seq<RankEntry>)
    requires RankedBut(snap, w, source, t, {}, ranked)
    ensures var sorted := Sort(RankLess, ranked);
            && StrictlyRanked(sorted)
            && (forall e :: e in sorted ==> Candidate(snap, w, source, t, e.id) && EntryOk(snap, w, source, e))
            && (forall id :: Candidate(snap, w, source, t, id) ==> Lists(sorted, id))
            && (sorted != [] <==> exists id :: Candidate(snap, w, source, t, id))
  {
    hide Candidate, EntryOk;
    var sorted := Sort(RankLess, ranked);
    SameElements(ranked, sorted);
    SortKeepsDistinctIds(ranked);
    if sorted != [] {
      assert sorted[0] in sorted;
    }
  }

  lemma SourceUnknown(snap: Snapshot, w: CostWeights, source: NodeId)
    requires source !in snap.nodes
    ensures forall id :: !Reachable(snap, w, source, id)
  {
  }

  lemma CutKeepsCheapest(snap: Snapshot, w: CostWeights, source: NodeId, t: NodeType, sorted: seq<RankEntry>, k: nat)
    requires StrictlyRanked(sorted)
    requires forall e :: e in sorted ==> Candidate(snap, w, source, t, e.id) && EntryOk(snap, w, source, e)
    requires forall id :: Candidate(snap, w, source, t, id) ==> Lists(sorted, id)
    ensures RankingOk(snap, w, source, t, k, if k > 0 && |sorted| > k then sorted[..k] else sorted)
  {
    hide IsBestCost, Candidate, EntryOk;
    var cut := if k > 0 && |sorted| > k then sorted[..k] else sorted;
    forall id, e, c | Candidate(snap, w, source, t, id) && !Lists(cut, id) && e in cut && IsBestCost(snap, w, source, id, c)
      ensures EntryLess(QueueEntry(e.cost, e.id), QueueEntry(c, id))
    {
      var f :| f in sorted && f.id == id;
      assert f !in cut;
      EntryIsBest(snap, w, source, f);
      BestCostIsUnique(snap, w, source, id, f.cost, c);
      var i :| 0 <= i < |cut| && cut[i] == e;
      var j :| 0 <= j < |sorted| && sorted[j] == f;
      assert j >= |cut|;
      assert RankLess(sorted[i], sorted[j]);
    }
  }

  // ---- The ranking is determined by the snapshot ----------------------------------------

  function PricedIds(ranked: seq<RankEntry>): (r: seq<QueueEntry>)
    ensures |r| == |ranked|
    ensures forall i :: 0 <= i < |ranked| ==> r[i] == QueueEntry(ranked[i].cost, ranked[i].id)
  {
    seq(|ranked|, i requires 0 <= i < |ranked| => QueueEntry(ranked[i].cost, ranked[i].id))
  }

  lemma EntryLessIsTotal()
    ensures StrictWeakOrder(EntryLess)
  {
  }

  lemma ListedAtBestCost(snap: Snapshot, w: CostWeights, source: NodeId, t: NodeType, k: nat, ranked: seq<RankEntry>, x: QueueEntry)
    requires RankingOk(snap, w, source, t, k, ranked)
    requires Lists(ranked, x.id) && IsBestCost(snap, w, source, x.id, x.cost)
    ensures x in PricedIds(ranked)
  {
    var e :| e in ranked && e.id == x.id;
    assert EntryOk(snap, w, source, e);
    BestCostIsUnique(snap, w, source, x.id, e.cost, x.cost);
    var i :| 0 <= i < |ranked| && ranked[i] == e;
    assert PricedIds(ranked)[i] == x;
  }

  lemma ListedCost(snap: Snapshot, w: CostWeights, source: NodeId, t: NodeType, k: nat, ranked: seq<RankEntry>, x: QueueEntry)
    requires RankingOk(snap, w, source, t, k, ranked)
    ensures x in PricedIds(ranked) ==> Candidate(snap, w, source, t, x.id) && IsBestCost(snap, w, source, x.id, x.cost)
    ensures x !in PricedIds(ranked) && Candidate(snap, w, source, t, x.id) && IsBestCost(snap, w, source, x.id, x.cost) ==>
              k > 0 && |ranked| == k && forall y :: y in PricedIds(ranked) ==> EntryLess(y, x)
  {
    if x in PricedIds(ranked) {
      var i :| 0 <= i < |ranked| && PricedIds(ranked)[i] == x;
      assert ranked[i] in ranked;
      assert EntryOk(snap, w, source, ranked[i]);
    } else if Candidate(snap, w, source, t, x.id) && IsBestCost(snap, w, source, x.id, x.cost) {
      if Lists(ranked, x.id) {
        ListedAtBestCost(snap, w, source, t, k, ranked, x);
        assert false;
      }
      forall y | y in PricedIds(ranked)
        ensures EntryLess(y, x)
      {
        var i :| 0 <= i < |ranked| && PricedIds(ranked)[i] == y;
        assert ranked[i] in ranked;
      }
    }
  }

  // What one ranking lists, every other ranking of the same query lists too.
  lemma ListedByBoth(snap: Snapshot, w: CostWeights, source: NodeId, t: NodeType, k: nat,
                     a: seq<RankEntry>, b: seq<RankEntry>, x: QueueEntry)
    requires RankingOk(snap, w, source, t, k, a) && RankingOk(snap, w, source, t, k, b)
    requires x in PricedIds(a)
    ensures x in PricedIds(b)
  {
    hide RankingOk, Candidate, IsBestCost, EntryLess;
    ListedCost(snap, w, source, t, k, a, x);
    ListedCost(snap, w, source, t, k, b, x);
    if x !in PricedIds(b) {
      EntryLessIsTotal();
      forall y | y in PricedIds(b)
        ensures y in PricedIds(a)
      {
        ListedCost(snap, w, source, t, k, b, y);
        ListedCost(snap, w, source, t, k, a, y);
        if y !in PricedIds(a) {
          assert false;
        }
      }
      RankedSize(snap, w, source, t, k, a);
      RankedSize(snap, w, source, t, k, b);
      var A, B := set y | y in PricedIds(a), set y | y in PricedIds(b);
      assert B + {x} <= A && x !in B;
      SubsetSize(B + {x}, A);
      assert false;
    }
  }

  lemma RankedSize(snap: Snapshot, w: CostWeights, source: NodeId, t: NodeType, k: nat, ranked: seq<RankEntry>)
    requires RankingOk(snap, w, source, t, k, ranked)
    ensures |(set x | x in PricedIds(ranked))| == |ranked| && (k > 0 ==> |ranked| <= k)
    ensures StrictlySorted(EntryLess, PricedIds(ranked))
  {
    EntryLessIsTotal();
    var c := PricedIds(ranked);
    forall i, j | 0 <= i < j < |c|
      ensures EntryLess(c[i], c[j])
    {
      assert RankLess(ranked[i], ranked[j]);
    }
    StrictlySortedSize(EntryLess, c);
  }

  // Whatever order the nodes are visited in, the ids and costs come out the same.
  lemma RankingIsUnique(snap: Snapshot, w: CostWeights, source: NodeId, t: NodeType, k: nat,
                        a: seq<RankEntry>, b: seq<RankEntry>)
    requires RankingOk(snap, w, source, t, k, a) && RankingOk(snap, w, source, t, k, b)
    ensures PricedIds(a) == PricedIds(b)
  {
    hide RankingOk, EntryLess;
    forall x
      ensures x in PricedIds(a) <==> x in PricedIds(b)
    {
      if x in PricedIds(a) {
        ListedByBoth(snap, w, source, t, k, a, b, x);
      }
      if x in PricedIds(b) {
        ListedByBoth(snap, w, source, t, k, b, a, x);
      }
    }
    EntryLessIsTotal();
    RankedSize(snap, w, source, t, k, a);
    RankedSize(snap, w, source, t, k, b);
    StrictlySortedIsUnique(EntryLess, PricedIds(a), PricedIds(b));
  }

  // ---- By candidate list --------------------------------------------------------------------

  ghost predicate Ranked(ranked: seq<RankEntry>) {
    SortedBy(RankLess, ranked)
  }

  // How often an id occurs in the list of candidates.
  ghost function Listed(ranked: seq<RankEntry>): multiset<NodeId> {
    BagSum((e: RankEntry) => multiset{e.id}, ranked)
  }

  ghost function Kept(snap: Snapshot, w: CostWeights, source: NodeId, ids: seq<NodeId>): multiset<NodeId> {
    if ids == [] then multiset{}
    else
      var id := ids[|ids| - 1];
      Kept(snap, w, source, ids[..|ids| - 1]) +
      if id != source && Reachable(snap, w, source, id) then multiset{id} else multiset{}
  }

  // Every candidate that can be reached is listed as often as it was given, cheapest first.
  method RankList(snap: Snapshot, source: NodeId, candidates: seq<NodeId>, w: CostWeights) returns (r: Outcome<RankResult>)
    requires snap.Indexed() && NonNegative(CostNetwork(snap, w)) && w.numaPenalty >= 0.0 && w.bandwidthRef != 0.0
    ensures snap.NoDangling() ==> r.Ok?
    ensures r.NotFound? ==> Dangles(snap, r.id)
    ensures r.Ok? ==>
              && Ranked(r.value.ranked)
              && Listed(r.value.ranked) == Kept(snap, w, source, candidates)
              && (forall e :: e in r.value.ranked ==> EntryOk(snap, w, source, e))
              && (r.value.found <==> r.value.ranked != []) && r.value.source == source && r.value.policyVersion == w.version
  {
    hide CostNetwork, NonNegative, EntryOk, Connected, Reachable;
    if source !in snap.nodes {
      SourceUnknown(snap, w, source);
      NothingKept(snap, w, source, candidates);
      return Ok(RankResult(false, source, [], w.version));
    }
    var ranked: seq<RankEntry> := [];
    for i := 0 to |candidates|
      invariant Listed(ranked) == Kept(snap, w, source, candidates[..i])
      invariant forall e :: e in ranked ==> EntryOk(snap, w, source, e)
    {
      var id := candidates[i];
      assert candidates[..i + 1][..i] == candidates[..i];
      if id != source && id in snap.nodes {
        var one := RankOne(snap, source, id, w);
        if one.NotFound? {
          return NotFound(one.id);
        }
        if one.value.Some? {
          assert (ranked + [one.value.value])[..|ranked|] == ranked;
          ranked := ranked + [one.value.value];
        }
      } else {
        UnknownIsUnreachable(snap, w, source, id);
      }
    }
    assert candidates[..|candidates|] == candidates;
    var sorted := Sort(RankLess, ranked);
    RankLessIsTotal();
    SortSorts(RankLess, ranked);
    SameElements(ranked, sorted);
    BagSumIsOrderFree((e: RankEntry) => multiset{e.id}, ranked, sorted);
    r := Ok(RankResult(sorted != [], source, sorted, w.version));
  }

  lemma UnknownIsUnreachable(snap: Snapshot, w: CostWeights, source: NodeId, id: NodeId)
    ensures id !in snap.nodes ==> !Reachable(snap, w, source, id)
  {
  }

  lemma {:induction false} NothingKept(snap: Snapshot, w: CostWeights, source: NodeId, ids: seq<NodeId>)
    requires forall id :: !Reachable(snap, w, source, id)
    ensures Kept(snap, w, source, ids) == multiset{}
    decreases |ids|
  {
    if ids != [] {
      NothingKept(snap, w, source, ids[..|ids| - 1]);
    }
  }
}
