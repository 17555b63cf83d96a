# Topology Fabric: a verified model of the core

Topology Fabric describes the hardware of a machine as a typed property graph. Providers contribute
nodes and edges, the runtime merges them into one graph, validates it, publishes it as an immutable
snapshot with a generation number, and answers queries about paths, distances and placement. Snapshots
are saved as JSON by a small printer and loaded by a bounded parser.

This project models that core and proves what it is for. Arithmetic on `double` is modelled over `real`;
in JSON a double has a sign and a finite size, is infinite, or is no number, printing rounds to six decimals
with ties to the even digit, and reading takes the exact value of the text, infinite from 2^1024 less half a
step on.
An exception for an unknown node id is the result `NotFound`. Hash containers are maps and sets walked
in an arbitrary order, so what is proved holds for every iteration order. Loops and objects that change
state in the source are loops and classes here, each proved against a specification whose own
properties are separate lemmas.

## How the modules fit together

| part | modules | main results |
|---|---|---|
| graph and values | `Types`, `Snapshots`, `Names`, `Identity`, `Text`, `Ordering`, `Sorting` | id and name round trips, key collisions |
| walks | `Walks` | when a search tree is optimal, acyclic and simple, for any non-negative network |
| path engine | `Costs`, `Queues`, `Paths`, `LinkCosts`, `Hops`, `Distances`, `Ranking` | `Paths.LowestCostPath`, `LinkCosts.SlowerLinkIsNotTaken`, `Hops.ShortestPath`, `Distances.BreakdownAgreesWithSearch`, `Ranking.RankingIsUnique` |
| closure and validation | `Hierarchy`, `Containment`, `Builder` | `Containment.HasCycleKahn`, `Builder.Validate`, `Hierarchy.Ancestors` |
| merge | `Merge`, `MergedNodes`, `MergeGraph`, `MergeTheorems`, `MergeOrder`, `MergeEdges`, `MergedEdges`, `MergeExamples` | `MergedEdges.MergedEdgeHasOrigin`, `MergeTheorems.MergeThenValidate`, `MergeEdges.NoDanglingExactly`, `MergeEdges.EdgesDecidedExactly`, `MergeOrder.MergeIsOrderIndependent` |
| diff and runtime | `Diff`, `LinkChanges`, `Attach`, `Runtime` | `Diff.UnchangedExactly`, `LinkChanges.LinkEventsExactly`, `Runtime.GenerationsOfARun` |
| JSON | `Doubles`, `JsonValues`, `JsonGrammar`, `JsonParser`, `JsonPrinter`, `JsonNumbers`, `JsonLimits`, `JsonRoundTrip`, `JsonTheorems`, `JsonTruncation`, `JsonStrict`, `JsonLiterals`, `JsonSyntax`, `JsonLanguage` | `JsonTheorems.RoundTrip`, `JsonLanguage.LanguageOfTheParser`, `JsonLimits.AcceptedTextIsWithinLimits`, `JsonTruncation.TruncationVerdict`, `JsonStrict.StrictVerdict` |
| documents | `Documents`, `Loading`, `DocumentReading`, `DocumentRoundTrip`, `DocumentSafety`, `DocumentSize`, `SnapshotRoundTrip`, `ExactRoundTrip` | `SnapshotRoundTrip.SaveAndLoad`, `ExactRoundTrip.SnapshotIsKeptExactly` |

## Where the code and its documentation differ

The model follows the code in each case.

- `COST_MODEL.md` charges the NUMA penalty on every edge that changes the NUMA node. The code charges it
  once, on the two endpoints (`src/core/path.cpp:169-176`).
- `SECURITY.md` says malformed JSON is rejected. The parser never sets the error field its string reader
  reports, so a string that does not scan makes its value null and parsing goes on
  (`include/topology_fabric/json.hpp:164`, `include/topology_fabric/json.hpp:287`).
  `JsonStrict.StrictVerdict` compares it with a parser that does report them: on every text they agree unless a
  string fails, and if that string runs to the end of the text nothing but null is accepted.
  `JsonTheorems.UnterminatedStringReadsAsNull` is a family of such texts, and
  `JsonStrict.BadEscapeIsPassedOver` is a text with a bad escape in the middle that is accepted as an array.
  The texts that the reporting parser accepts are exactly those in the JSON syntax
  (`JsonLanguage.LanguageOfTheParser`), over 7-bit characters and widened by leading zeros, numbers without digits
  on one side of the point, control characters as they are (`JsonLanguage.WiderThanTheStandard`), and the words NaN
  and Inf where the options allow them.
  `JsonTruncation.TruncationVerdict` says exactly which printed texts are still accepted after losing their
  end: an object cut inside one of its own keys is, a saved snapshot that was cut is never loaded
  (`SnapshotRoundTrip.TruncatedSnapshotIsRefused`).
- `SERIALIZATION.md` says a snapshot is rebuilt exactly from its JSON. The printer writes doubles with six decimals, and
  what has none left is read as an integer, as signed numbers that are not negative are read as unsigned ones. So the
  nodes and edges come back exactly as they were if and only if no number is of that kind
  (`ExactRoundTrip.SnapshotIsKeptExactly`), and otherwise rounded (`DocumentRoundTrip.SavedRealIsNearest`).
- A merged node keeps the key it was grouped under exactly when its members do not complete a PCI address
  that none of them reports whole (`Merge.MergedKeyIsGroupKey`; `Merge.PartialAddressesChangeTheKey` is a
  pair that does).
- A snapshot compared with itself counts as changed exactly when two of its edges share a key but not their
  link facts (`Diff.SelfComparison`, with an input in `Diff.DisagreeingEdgesDifferFromThemselves`).
- The merge can leave a dangling edge: none is possible exactly when every reference of a used edge is the
  key of a kept group or is declared by members of kept groups only (`MergeEdges.NoDanglingExactly`, with an
  input in `MergeExamples.DroppedGroupLeavesDanglingEdge`).
- The edges a merge resolves depend on the hash order exactly when a used edge has a reference whose
  declaring members belong to different nodes and that is not itself the key of a kept group
  (`MergeEdges.EdgesDecidedExactly`). This is about the list before
  deduplication, which can hide a difference; `MergeExamples.SharedReferenceSplitsTheMerge` is an input with two
  different merges.
- The machine-attach pass can close a containment cycle; `Attach.AttachCyclesOnlyThroughMachine` says when, and
  `Attach.AttachCanCloseACycle` is an input on which it does.

## Model

| member | source | states |
|---|---|---|
| Walks.FrontierMinimumIsOptimal | src/core/path.cpp:129-148 | in any non-negative network, a waiting node of least label has its optimal cost, although the search never looks beyond the settled nodes |
| Walks.LabelledWalksAreSimple | src/core/path.cpp:156-164 | following parents from any labelled node visits no node twice, even along edges of cost zero |
| Walks.ReverseWalk | src/core/snapshot.cpp:155-159 | where every step can be taken back, a walk turned around is a walk in the other direction |
| Snapshots.RefsAreTheEdgesOfANode | src/core/snapshot.cpp:155-159 | the references of a node are exactly the edges touching it, seen from its end |
| Snapshots.EndsInBound | src/core/snapshot.cpp:155-159 | references out of distinct nodes number at most twice the edges |
| Costs.SanePoliciesGiveNonNegativeNetworks | src/internal.hpp:68-92 | weights and latencies that are not negative, with a positive reference bandwidth, make every traversal cost at least zero |
| Costs.CostNetworkMembers | src/core/path.cpp:133-139 | the steps the cost search may take are the adjacent known pairs not joined by a collocation edge, at the traversal cost of the edge |
| Costs.HopWalksAreCostWalks | src/core/path.cpp:13-17 | without dangling edges, every walk that avoids collocation edges is a walk of the cost network |
| Queues.PopMin | src/core/path.cpp:130 | takes an entry that no other entry precedes and leaves the rest of the bag alone |
| Paths.RelaxEdge | src/core/path.cpp:133-147 | trying one reference keeps the search tree, the queue and every settled label, and leaves the neighbour labelled no dearer than through this node; only an unknown endpoint is an error |
| Paths.CostSearch | src/core/path.cpp:121-148 | the search ends having expanded each node at most once, the count being the size of the set, with at most 1 + 2E queue entries; it reaches the target exactly when some walk does, and its tree then holds a cheapest walk |
| Paths.TraceCosts | src/core/path.cpp:153-165 | reading the parents back ends at the source and gives the walk of the tree, each segment priced at its edge |
| Paths.EstimateLinks | src/core/path.cpp:19-37 | the bandwidth is the least along the path, never above any segment and met by one, or the reference when there is none; the latency is the sum |
| Paths.EstimatesAreMeasured | src/core/path.cpp:24-37 | over the facts of the edges themselves: no positive measured bandwidth on the path is below the estimate, which is one of them if all edges are measured, and the latency is their sum if all have one |
| Paths.LowestCostPath | src/core/path.cpp:104-179 | found exactly when both ends are known and some walk without collocation edges joins them; the segments are then such a walk, no walk is cheaper, no node repeats, and the total is its cost plus the endpoint penalty; the reported bandwidth is at most every positive one measured on the path, and one of them if all are, and the latency is the sum of the measured ones if all are; at most one expansion per node and 1 + 2E queue entries; it fails only on a dangling edge |
| LinkCosts.SpeedDecidesCost | src/internal.hpp:75-77 | two positive bandwidths of one link differ in cost by scale times reference times the difference of their inverses |
| LinkCosts.LatencyDecidesCost | src/internal.hpp:72-73 | two latencies of one link differ in cost by the weight times their difference |
| LinkCosts.DoubtDecidesCost | src/internal.hpp:84-85 | low or unknown confidence costs the uncertainty penalty more than any other |
| LinkCosts.BridgesAndRootsPay | src/internal.hpp:79-80 | entering a bridge or a root costs its penalty more than entering another PCI device |
| LinkCosts.LeavingTheFamilyPays | src/internal.hpp:13-41 | a link costs the transition penalty exactly when its ends are of different families of hardware, listed type by type |
| LinkCosts.UnmeasuredLinks | src/internal.hpp:43-66 | the price of an unmeasured link for every type of node under the default policy, as a number |
| LinkCosts.NoCheaperParallelLink | src/core/path.cpp:129-148 | no link parallel to one on a cheapest path, reported in either direction, is cheaper |
| LinkCosts.SlowerLinkIsNotTaken | src/core/path.cpp:129-148 | of two links alike but for their measured bandwidth a cheapest path never uses the slower |
| LinkCosts.LongerLatencyIsNotTaken | src/core/path.cpp:129-148 | of two links alike but for their measured latency a cheapest path never uses the one with the longer |
| LinkCosts.TotalOfAPath | src/core/path.cpp:153-179 | the total is the sum of the segment costs, and the NUMA penalty exactly when both ends report different NUMA nodes |
| LinkCosts.LinksThatConnect | src/core/path.cpp:13-17 | one link of any type connects its ends when collocation is asked for, and one of any type but two when it is not |
| LinkCosts.LinksThatDoNot | src/core/path.cpp:13-17 | unasked, no walk crosses a SHARES_PARENT or SHARES_NUMA edge |
| Hops.HopSearch | src/core/path.cpp:63-83 | breadth-first search reaches the target exactly when a walk obeying the collocation flag does, at the least number of edges |
| Hops.TraceHops | src/core/path.cpp:88-97 | the reconstruction ends and yields the walk of the tree |
| Hops.ShortestPath | src/core/path.cpp:47-102 | found exactly when a walk obeying the flag joins the known ends; the path then has the fewest edges of all such walks and its bandwidth and latency are those of its segments |
| Hops.HopsAreSymmetric | src/core/snapshot.cpp:155-159 | fewest-edge walks there and back have the same number of edges |
| Hops.ConnectionIsSymmetric | src/core/snapshot.cpp:155-159 | what is reachable is reachable in the other direction |
| Hierarchy.ParentsAndChildren | src/core/graph.cpp:13-27 | a is listed as a parent of b exactly when b is listed as a child of a, both exactly when such an edge exists |
| Hierarchy.Parents | src/core/graph.cpp:13-19 | collects the sources of the edges of the type into the node, in edge order |
| Hierarchy.Children | src/core/graph.cpp:21-27 | collects the targets of the edges of the type out of the node, in edge order |
| Hierarchy.Ancestors | src/core/graph.cpp:29-40 | exactly the nodes with a non-empty walk of the type down to the node, each once; the node itself only if it lies on a cycle |
| Hierarchy.Descendants | src/core/graph.cpp:42-53 | exactly the nodes a non-empty walk of the type leads to, each once, so it inverts Ancestors |
| Containment.CountDegrees | src/core/snapshot.cpp:73-76 | every endpoint of a CONTAINS edge gets its in-degree, parallel edges and self-loops counted |
| Containment.ReleaseKids | src/core/snapshot.cpp:83-85 | taking a node off the stack lowers the in-degrees of its children and adds those that reach zero |
| Containment.OrderedIsAcyclic | src/core/snapshot.cpp:71-88 | an order of all endpoints in which every CONTAINS edge leads forward excludes a cycle |
| Containment.StuckHasCycle | src/core/snapshot.cpp:87 | a non-empty set of nodes each with a parent inside the set holds a cycle |
| Containment.HasCycleKahn | src/core/snapshot.cpp:66-88 | true exactly when the CONTAINS multigraph has a directed cycle, self-loops and parallel edges included |
| Builder.CheckEndpoints | src/core/snapshot.cpp:39-44 | reports exactly the missing sources and the missing targets |
| Builder.CheckIdentities | src/core/snapshot.cpp:46-60 | silent exactly when nodes with a canonical key have different ones, whatever the map order |
| Builder.CheckSelfContainment | src/core/snapshot.cpp:61-64 | reports exactly the nodes that contain themselves |
| Builder.Validate | src/core/snapshot.cpp:35-115 | ok exactly when no endpoint is missing, identities are distinct and containment has no cycle; each kind of error appears exactly when its cause does |
| Builder.BuildAdjacency | src/core/snapshot.cpp:155-159 | the index lists for every id its references in edge order, two for a self-loop |
| Builder.SnapshotBuilder.constructor | include/topology_fabric/snapshot.hpp:26-51 | an empty builder within its bounds |
| Builder.SnapshotBuilder.AddNode | src/core/snapshot.cpp:117-126 | keeps the first node of an id, refuses a full or spent builder, changes nothing else |
| Builder.SnapshotBuilder.AddEdge | src/core/snapshot.cpp:128-133 | appends unless full or spent |
| Builder.SnapshotBuilder.SetValidation | src/core/snapshot.cpp:136 | sets the result that is forced on the snapshot to be taken |
| Builder.SnapshotBuilder.Take | src/core/snapshot.cpp:138-162 | once: the snapshot holds what was added, is indexed, and is valid exactly when its graph is well formed and no error was forced; a second take is refused |
| Distances.BreakDown | src/core/cost.cpp:33-54 | each part of the breakdown is explained by the segments that caused it, and the total equals the sum of the edge costs plus one endpoint penalty; it fails only on an unknown node |
| Distances.PartsOfMeasuredLinks | src/core/cost.cpp:33-54 | on measured links the inverse-bandwidth part is scale times reference times the sum of the inverse bandwidths, and the latency part the weight times the sum of the latencies |
| Distances.BreakdownAgreesWithSearch | src/core/cost.cpp:33-54 | for every found lowest-cost path the breakdown total is the total the search reported |
| Distances.RootAncestor | src/core/graph.cpp:72-86 | the first node of the type on the chain of first parents; the null id exactly when the chain never meets one, cycles included |
| Distances.ScoreIsMonotone | src/core/locality.cpp:134 | the normalised score grows with the cost and stays below one |
| Distances.ScoreIsInvertible | src/core/locality.cpp:134 | the cost can be computed back from the score |
| Distances.DistanceBetween | src/core/locality.cpp:92-136 | zero for the same node, the unreachable record exactly when no walk joins the ends, and otherwise every count, flag and estimate is that of one shortest walk |
| Distances.DistanceAgainstCheapestPath | src/core/locality.cpp:103-134 | the hops of the distance are at most those of the lowest-cost path, and its score lies between that of the optimal cost and one |
| Ranking.RankOne | src/core/ranking.cpp:43-53 | an entry exists exactly for a reachable candidate; its cost and breakdown are those of one cheapest path, its distance record that of one shortest walk, which has no more hops than the path |
| Ranking.RankByType | src/core/ranking.cpp:35-64 | exactly the reachable other nodes of the type, strictly ordered by optimal cost and id, cut to the k first: everything left out follows everything kept |
| Ranking.RankingIsUnique | src/core/ranking.cpp:55-62 | two such rankings list the same ids at the same costs, so the node-map order cannot show |
| Ranking.RankList | src/core/ranking.cpp:66-94 | the given candidates that are known and reachable, as often as they were given, in order of cost and id |
| Identity.TryFromHex | src/core/node_id.cpp:35-56 | accepts exactly 32 digits, except that a half of all ones must be in small letters, and returns their value |
| Identity.IdTextIsReadable | src/core/node_id.cpp:28-33 | the text of every 128-bit id has 32 digits whose halves stand for the two words |
| Identity.ReadIdBack | src/core/node_id.cpp:28-56 | writing and reading an id is the identity, for all 128-bit ids |
| Identity.IdsByValue | include/topology_fabric/node_id.hpp:26-28 | ids are ordered by their 128-bit value, the null id first |
| Identity.BdfInjective | src/core/identity.cpp:8-22 | two PCI addresses have one text exactly when all four parts agree, also where a part is wider than its padding |
| Identity.BdfLayout | src/core/identity.cpp:8-22 | domain, bus, device and function are read back from fixed places of the text of an address |
| Identity.KeyIsTaggedPayload | src/core/identity.cpp:24-37 | the key is the tag of the most stable fact followed by the fact, and is empty exactly when nothing is reported |
| Identity.KeysCollideOnEqualFacts | src/core/identity.cpp:24-37 | keys agree exactly when kind and fact agree, so kinds never collide |
| Names.TypeNameReadsBack | src/core/types.cpp:7-46 | every node type is read back from its text |
| Names.EdgeTypeNameReadsBack | src/core/types.cpp:48-76 | every edge type is read back from its text |
| Names.DirectionNameReadsBack | src/core/types.cpp:78-89 | every direction is read back from its text |
| Names.KindNameReadsBack | src/core/types.cpp:91-108 | every provenance kind is read back from its text |
| Names.ConfidenceNameReadsBack | src/core/types.cpp:110-127 | every confidence is read back from its text |
| Merge.TypeKeysAreApart | src/core/merge.cpp:33-37 | a node without native identity is grouped under a key no canonical key equals |
| Merge.MergeNative | src/core/merge.cpp:53-81 | each of the 22 fields has the value of the first member that reports it, and none when no member does |
| Merge.MergedKeyIsGroupKey | src/core/merge.cpp:53-81 | the identity merged from members of one group key has exactly that key, and none for a type group, if and only if the members do not complete a PCI address that none of them has |
| Merge.PartialAddressesChangeTheKey | src/core/merge.cpp:53-81 | two half PCI addresses merge into a whole one and change the key |
| Merge.WholeAddressesKeepTheKey | src/core/identity.cpp:24-28 | members that report their addresses whole or not at all complete none |
| Merge.BestTypeIsBest | src/core/merge.cpp:131-133 | the merged type is some member's and no member's ranks higher |
| Merge.ConfidenceOfFirst | src/core/merge.cpp:154-163 | the maximal confidence of the group is that of its first member, whose provenance is kept |
| Merge.KeptValueIsMostConfident | src/core/merge.cpp:165-178 | a key is kept exactly when some member has it, with the value of a member no other holder of the key outranks |
| Merge.MergeProperties | src/core/merge.cpp:165-178 | conflicts plus kept keys equal the entries of all members, and each key conflicts once per holder after the first |
| Merge.AssembleNode | src/core/merge.cpp:140-182 | the merged node of a group, with its bookkeeping properties |
| MergedNodes.GroupsMeetExactly | src/core/merge.cpp:33-37 | two contributed nodes meet in one group exactly when they report the same native fact, or none and the same type and name |
| MergedNodes.TrustDescends | include/topology_fabric/confidence.hpp:8-17 | the five grades of confidence in order |
| MergedNodes.DetailDescends | src/core/merge.cpp:11-31 | one type outranks another exactly when it is listed as more specific |
| MergedNodes.CapabilitiesUnite | src/core/merge.cpp:153-161 | a merged node has exactly the capability bits of its members |
| MergedNodes.NameOfMerged | src/core/merge.cpp:144-151 | the first member of the merged type names the node, a longest name if that one has none, and its id is displayed if nobody has |
| MergedNodes.MergedNodeFacts | src/core/merge.cpp:140-164 | identity, confidence, provenance, synthetic mark and type of a merged node in terms of its members |
| MergedNodes.MergedNodeProperties | src/core/merge.cpp:165-181 | each property has the value of a holder no other holder outranks; the two bookkeeping properties hold the number of members and where they come from, unless a member uses their names; there is no other |
| MergedNodes.TiesInOrder | src/core/merge.cpp:124-130 | members come by confidence, equally trusted ones by contribution and then by position |
| MergeGraph.Ingest | src/core/merge.cpp:99-111 | the members ingested before the node bound stops each contribution, grouped by key |
| MergeGraph.BestMembers | src/core/merge.cpp:124-130 | the members of a group are exactly those with its key, in order of confidence |
| MergeGraph.BuildNodes | src/core/merge.cpp:121-184 | one node per kept group in key order, dropping groups beyond the bound |
| MergeGraph.ResolveRefs | src/core/merge.cpp:112-114 | the groups are visited once, in one order, and the table is the one that order gives |
| MergeGraph.FirstDeclarerDecides | src/core/merge.cpp:188-191 | in that table a kept group's key means its node, any other reference means the first group visited that declares it, or the null id if that group was dropped, and nothing else has a meaning |
| MergeGraph.AnyDeclarerDecides | src/core/merge.cpp:190-191 | every group that declares such a reference decides it in some order of the groups |
| MergeOrder.KeptExactly | src/core/merge.cpp:135-138 | with ids that do not collide, a group is kept if and only if fewer than maxNodes group keys precede its key |
| MergeGraph.ResolveEdges | src/core/merge.cpp:193-223 | the edges whose references both resolve, in order, up to the bound |
| MergeGraph.Deduplicate | src/core/merge.cpp:224-230 | keeps the first edge of each key |
| MergeGraph.DedupFacts | src/core/merge.cpp:224-230 | the kept edges have distinct keys and cover the key of every edge |
| MergeGraph.MergeContributions | src/core/merge.cpp:85-232 | the result is a merge: the node table of the sorted groups, the reference table of one order of the groups, and the deduplicated resolved edges; `MergedEdges` says what its edges are without naming these |
| MergedEdges.MergedEdgeHasOrigin | src/core/merge.cpp:193-230 | every edge of a merge comes from a contributed one: it runs from what the first reference means to what the second means, the derived id of a kept or a declaring group, and agrees with it in all eleven facts, the rest having their defaults |
| MergedEdges.UsedEdgeSurvives | src/core/merge.cpp:193-230 | every used contributed edge leaves one of its type between what its references mean, the same way round unless one of the two is undirected |
| MergedEdges.NoLinkTwice | src/core/merge.cpp:224-230 | no two edges of one type run the same way between the same nodes, and no two undirected ones join the same nodes |
| MergeTheorems.MergeLeavesNoDanglingEdge | src/core/merge.cpp:186-222 | within the node bound every edge of the merge joins nodes of the merge |
| MergeEdges.MergesAreChoices | src/core/merge.cpp:186-230 | the merges of some contributions are exactly the outcomes of the reference tables that some order of the groups gives |
| MergeEdges.NoDanglingExactly | src/core/merge.cpp:186-222 | no run leaves a dangling edge if and only if every reference of the first maxEdges usable edges is a kept group's key or is declared by members of kept groups only |
| MergeExamples.DroppedGroupLeavesDanglingEdge | src/core/merge.cpp:135-138 | with room for one node, a link between two groups dangles |
| MergeTheorems.MergedIdentitiesAreDistinct | src/core/merge.cpp:121-184 | when no group completes an address, no two merged nodes report one identity |
| MergeTheorems.MergeThenValidate | src/core/merge.cpp:85-232 | a merge within bounds in which no group completes an address is valid exactly when its containment has no cycle |
| MergeTheorems.WholeAddressesStandAlone | src/core/identity.cpp:24-28 | contributions that report addresses whole satisfy that condition |
| MergeTheorems.OneNodePerGroup | src/core/merge.cpp:121-184 | with ids that do not collide every group has its own node, merged from all its members |
| MergeOrder.HashOrderMattersOnlyIfAmbiguous | src/core/merge.cpp:112-114 | every order of the groups gives the same reference table exactly when each reference that is not a kept group's key has one target |
| MergeEdges.EdgesDecidedExactly | src/core/merge.cpp:186-222 | all runs resolve the same edges if and only if the members declaring a reference of a used edge all belong to one node, or the reference is a kept group's key |
| MergeEdges.MergeIsDeterministic | src/core/merge.cpp:85-232 | then any two runs give the same graph, conflicts included |
| MergeEdges.UnsettledFirstEdgeSplits | src/core/merge.cpp:190-191 | if already the first used edge has a reference that is not so, two runs give different edges |
| MergeExamples.SharedReferenceSplitsTheMerge | src/core/merge.cpp:190-191 | a card and a disk under one reference, and two merges of them that differ |
| MergeOrder.MergeIsOrderIndependent | src/core/merge.cpp:92-132 | within bounds, with unambiguous references and distinct confidences in each group, permuting the contributions changes neither the nodes nor the set of edge keys |
| Diff.MaterialIffChanged | src/core/diff.cpp:114-123 | some listed event is material exactly when nodes, their fingerprints, edge keys or link facts differ |
| Diff.CompareSnapshots | src/core/diff.cpp:28-125 | lists exactly the events that happened, sorted, each as often as it occurs: once about a node, once for every edge; reports material change exactly when the snapshots differ in a material way; `LinkChanges` says fact by fact what that is for links |
| Diff.EventsInOrder | src/core/diff.cpp:114-121 | listed events ascend by kind, in the order of the kinds, then by nodes and key |
| LinkChanges.SameLinkExactly | src/core/edge.cpp:6-13 | two edges of one direction have one key exactly when they have one type and the same ends, in either order if they are undirected |
| LinkChanges.LinkEventsExactly | src/core/diff.cpp:100-112 | an edge.link event between two nodes is listed exactly when a report between them differs from the first report of its link in bandwidth, latency, width, generation or accessibility, and it is material |
| LinkChanges.NoLinkEvents | src/core/diff.cpp:100-112 | if no report differs, no such event is listed |
| LinkChanges.EdgeEventsExactly | src/core/diff.cpp:89-99 | a link is listed as added or removed, ends in order, exactly when an edge with these ends has a key the other snapshot lacks |
| Diff.UnchangedExactly | src/core/diff.cpp:36-124 | for all snapshots: no material change if and only if the structural fingerprints are equal and parallel edges of the newer snapshot agree on their facts |
| Diff.MaterialIsFingerprintChange | src/core/diff.cpp:36-124 | with unique edge keys, no material change exactly when the fingerprints are equal |
| Diff.NoMaterialChangeIsAnEquivalence | src/core/diff.cpp:122-123 | among snapshots whose parallel edges agree it is reflexive, symmetric and transitive |
| Diff.SelfComparison | src/core/diff.cpp:100-112 | a snapshot is unchanged against itself if and only if any two of its edges with one key have the same facts |
| Diff.DisagreeingEdgesDifferFromThemselves | src/core/diff.cpp:100-112 | one link reported with two widths differs from itself |
| Attach.AttachResources | src/core/runtime.cpp:76-97 | adds exactly one CONTAINS edge from a machine to each resource that has no parent edge; `Attach.DevicesArePlaced` and `Attach.NewEdgesPlaceDevices` say which nodes those are |
| Attach.ResourcesHaveParents | src/core/runtime.cpp:83-95 | after the pass every resource has a CONTAINS or ATTACHED_TO edge into it |
| Attach.DevicesArePlaced | src/core/runtime.cpp:83-95 | after the pass with a machine every other accelerator, storage device, network interface, PCI root and PCI device has a CONTAINS or ATTACHED_TO edge into it |
| Attach.NewEdgesPlaceDevices | src/core/runtime.cpp:83-95 | every new edge is the one new edge of such a device, leads from the machine, and none had such an edge before |
| Attach.AttachKeepsKeysUnique | src/core/runtime.cpp:88-93 | where CONTAINS edges are directed, unique edge keys stay unique |
| Attach.AttachCyclesOnlyThroughMachine | src/core/runtime.cpp:76-97 | the result has a cycle exactly when there was one or a newly attached resource lies above the machine |
| Attach.AttachCanCloseACycle | src/core/runtime.cpp:76-97 | a PCI root reported to contain the machine is hung under it, which closes a cycle |
| Attach.UncontainedMachineIsSafe | src/core/runtime.cpp:76-97 | if nothing contains the machine, containment stays free of cycles |
| Runtime.GenerationsClimb | src/core/runtime.cpp:130-138 | generations never fall and never skip a number |
| Runtime.GenerationCountsChanges | src/core/runtime.cpp:130-138 | the last generation is one plus the material changes of the history |
| Runtime.EqualGenerationsEqualFingerprints | src/core/runtime.cpp:130-138 | in every history, any two published snapshots of one generation have one fingerprint |
| Runtime.NewGenerationNewFingerprint | src/core/runtime.cpp:130-138 | neighbours have one generation if and only if they have one fingerprint and the newer has no disagreeing parallel edges |
| LinkChanges.SameGenerationSameFacts | src/core/runtime.cpp:130-138 | over every history: snapshots of one generation have the same nodes with the same capabilities, placement and provider, and the first reports of every link agree on bandwidth, latency, width, generation and accessibility |
| Runtime.DiscoveredKeysAreUnique | src/core/runtime.cpp:71-97 | providers that direct containment never make two edges of a discovery share a key |
| Runtime.GenerationsOfARun | src/core/runtime.cpp:39-156 | in every run of discoveries equal generations mean equal fingerprints and the generation is one plus the changes; where containment is directed, neighbours change both together |
| Runtime.TopologyRuntime.constructor | src/core/runtime.cpp:26 | a runtime with an empty run |
| Runtime.TopologyRuntime.BuildSnapshot | src/core/runtime.cpp:113-128 | the nodes and the edges up to the bound, indexed and validated, under a fresh snapshot number |
| Runtime.TopologyRuntime.NextGeneration | src/core/runtime.cpp:130-138 | compares a provisional snapshot of the same graph and raises generation and counter together |
| Runtime.TopologyRuntime.Discover | src/core/runtime.cpp:39-156 | publishes the merged and attached graph of the contributions, keeps the run a run, and raises the generation by one exactly on a material change |
| JsonValues.FindAfterSet | include/topology_fabric/json.hpp:76-81 | setting a key makes it found with that value and changes no other key |
| JsonValues.SetFieldAscends | include/topology_fabric/json.hpp:17 | objects stay in key order, each key once |
| JsonParser.Parser.ParseText | include/topology_fabric/json.hpp:136-143 | the parser returns what the grammar reads, or the error and position where it stops |
| JsonParser.Parser.ParseValue | include/topology_fabric/json.hpp:155-172 | one value at a depth, counted and dispatched on its first character; it ends on every text and reads nothing behind it |
| JsonParser.Parser.ParseString | include/topology_fabric/json.hpp:181-219 | escapes, the byte limit and the refusal of bytes from 0x80 on; a failed scan stays where it failed |
| JsonParser.Parser.ReadHex4 | include/topology_fabric/json.hpp:205 | the value of four hexadecimal digits, or none |
| JsonParser.Parser.ParseNumber | include/topology_fabric/json.hpp:228-255 | the longest number token; integers saturate at 64 signed bits and become unsigned without a sign, other tokens denote their decimal value, sign of the exponent included, as `JsonLiterals.NumericMeaning` says of every token |
| JsonLiterals.NumericMeaning | include/topology_fabric/json.hpp:237-253 | a token put together from sign, digits, fraction and exponent denotes the size whose product with the powers of ten behind the point and behind a minus is its digits, times the power of ten otherwise; infinite from the overflow bound on |
| JsonLiterals.ExponentScales | include/topology_fabric/json.hpp:240-247 | an exponent behind any number token without one: with a minus the size times the power of ten is the size without it, otherwise the size is multiplied |
| JsonSyntax.NumberTextIsRead | include/topology_fabric/json.hpp:228-255 | the parser reads every text that is such a number as that double |
| JsonSyntax.SpecialWords | include/topology_fabric/json.hpp:230-236 | NaN and Inf are read only where the options allow it, and a plus sign never |
| JsonParser.Parser.ParseArray | include/topology_fabric/json.hpp:257-276 | items up to the closing bracket |
| JsonParser.Parser.ParseObject | include/topology_fabric/json.hpp:278-303 | fields up to the closing brace, later ones overwriting, a bad key ending the object as null |
| JsonLimits.AcceptedTextIsWithinLimits | include/topology_fabric/json.hpp:136-303 | an accepted text was read whole, holds no byte from 0x80 on, and its value keeps the depth, count and string limits with objects in key order; the errors reserved for bad strings are never reported |
| JsonPrinter.Writer.WriteValue | include/topology_fabric/json.hpp:317-376 | appends exactly the text of the value and keeps what was written |
| JsonPrinter.Writer.WriteDouble | include/topology_fabric/json.hpp:328-337 | appends the six-decimal text without its trailing zeros and bare point, or the texts for infinity and for no number |
| Doubles.FiniteText | include/topology_fabric/json.hpp:332-336 | stripping takes exactly the zeros behind the point, and the point if nothing is left |
| Doubles.ShortenedValue | include/topology_fabric/json.hpp:332-336 | the digits that are left denote the rounded number, and none is left behind the point exactly when it is whole |
| JsonPrinter.DumpText | include/topology_fabric/json.hpp:378-382 | the text of a value in the given mode |
| JsonRoundTrip.StringReadsBack | include/topology_fabric/json.hpp:346-360 | every 7-bit string within the limit is read back from its escaped form, control characters included |
| JsonNumbers.NumberReadsBack | include/topology_fabric/json.hpp:326-327 | every printed integer is read back as one token, unsigned if it has no sign, saturated at the largest signed value |
| JsonNumbers.FloatReadsBack | include/topology_fabric/json.hpp:236-253 | every printed double is read back as one token: rounded to six decimals, as a saturated integer if none is left, infinite if it was |
| JsonTheorems.RoundTrip | include/topology_fabric/json.hpp:317-382 | every value in key order, doubles included, comes back normalised, in either mode, exactly when its strings are 7-bit and it is within the limits of the parser |
| JsonTheorems.NormalValuesAreKept | include/topology_fabric/json.hpp:247-253 | exactly the values without non-negative signed and oversized unsigned integers and with doubles of at most six and at least one decimal, or infinite, come back as they are |
| JsonTheorems.ReadValuesAreNormal | include/topology_fabric/json.hpp:332-336 | what came back would come back as it is, exactly when no negative double was printed as a zero with a minus |
| JsonTheorems.SecondPrint | include/topology_fabric/json.hpp:317-382 | printing what came back is no longer, and gives the same text exactly when no number was saturated and no minus stood before a zero |
| JsonTheorems.PrintParsePrint | include/topology_fabric/json.hpp:310-382 | the printer and the parser themselves, run one after the other, obey these three laws |
| JsonTheorems.StringTextVerdict | include/topology_fabric/json.hpp:164 | a text that starts a string is accepted exactly when only white space is left where the scan stopped, as null if the scan failed |
| JsonTheorems.UnterminatedStringReadsAsNull | include/topology_fabric/json.hpp:181-219 | every plain string without its closing quote is accepted as null |
| JsonStrict.StrictVerdict | include/topology_fabric/json.hpp:155-303 | for every text: the same outcome as a parser that reports failed strings unless it stops at one, and if that string ran to the end of the text, a rejection or null |
| JsonSyntax.SyntaxIsRead | include/topology_fabric/json.hpp:136-303 | every text in the JSON syntax within the limits, whatever its white space, escapes and number forms, is read as what it means, the last of equal keys counting |
| JsonSyntax.CodeBytes | include/topology_fabric/json.hpp:221-226 | the bytes of a code escape decode, in the shortest form, to its code point |
| JsonLanguage.LanguageOfTheParser | include/topology_fabric/json.hpp:136-303 | the texts accepted with no failed string are exactly those in the syntax and within the limits, and each has one meaning however it is taken apart |
| JsonLanguage.WiderThanTheStandard | include/topology_fabric/json.hpp:212-253 | four texts outside RFC 8259 that are read |
| JsonStrict.BadEscapeIsPassedOver | include/topology_fabric/json.hpp:164 | a concrete text with a bad escape that is accepted as an array of null and a number |
| JsonTruncation.TruncationVerdict | include/topology_fabric/json.hpp:278-303 | every proper beginning of a printed value is accepted if and only if it cuts an object inside one of its own keys, or a string, outside a Unicode escape, or leaves a number, which needs a digit behind its sign and its exponent; what is accepted reads as null or as the shorter number |
| Documents.PropertiesToJson | src/core/serialization.cpp:172-174 | the object of a property map, the same for every order of the map |
| Documents.SnapshotToJson | src/core/serialization.cpp:146-231 | nodes in id order and edges in edge order, each once, under the metadata |
| Documents.EdgesInOrder | src/core/serialization.cpp:187-191 | edges are written by source, target and type, in the order of the types |
| Loading.LoadNodes | src/core/serialization.cpp:267-291 | the nodes of the array with the first of each id, or the first fault |
| Loading.LoadEdges | src/core/serialization.cpp:293-321 | the edges of the array in order, or the first fault |
| Loading.Deserialize | src/core/serialization.cpp:240-327 | loads exactly the content of the document or reports the first fault, and the rebuilt snapshot is indexed and validated afresh |
| DocumentReading.TypesOfDocuments | src/core/types.cpp:7-46 | each listed text means its node type and no other text means one |
| DocumentReading.LinksOfDocuments | src/core/types.cpp:48-76 | each listed text means its edge type, any other a connection |
| DocumentReading.BareNode | src/core/serialization.cpp:275-290 | a node that gives only its id has the defaults in every other field |
| DocumentReading.BareEdge | src/core/serialization.cpp:300-321 | an edge that gives only its ends has the defaults in every other field |
| DocumentReading.OddProperties | src/core/serialization.cpp:29-47 | objects read as null, arrays that start with a string and hold something else are refused, other arrays are integers with zero for what is no number |
| DocumentReading.DoublesAreCut | include/topology_fabric/json.hpp:93 | a double where an integer is wanted is cut toward zero |
| DocumentRoundTrip.NativeReadsBack | src/core/serialization.cpp:49-117 | all 22 fields of every native identity survive printing, parsing and reading |
| DocumentRoundTrip.ProvenanceReadsBack | src/core/serialization.cpp:119-144 | every provenance survives |
| DocumentRoundTrip.PropertyReadsBack | src/core/serialization.cpp:10-47 | every safe property survives, a non-negative signed integer coming back unsigned and a double rounded to six decimals, as an integer if none is left |
| DocumentRoundTrip.SavedRealIsNearest | include/topology_fabric/json.hpp:332-336 | up to 2^63-1 in size, a saved double is the nearest number with six decimals, saving it again changes nothing, and it is unchanged if and only if it had six decimals |
| DocumentRoundTrip.NodeReadsBack | src/core/serialization.cpp:163-177 | a node survives with normalised properties |
| DocumentRoundTrip.EdgeReadsBack | src/core/serialization.cpp:191-212 | an edge survives with normalised properties and with bandwidth, latency and locality score as `DocumentRoundTrip.SavedReal` says |
| DocumentSize.DocumentHasSize | src/core/serialization.cpp:146-231 | the number of JSON values of every document of a snapshot: 13, 42 for a node, 19 and its optional facts for an edge, the properties, the warnings and the report |
| DocumentSafety.SafeDocumentIsPrintable | src/core/serialization.cpp:146-231 | the document of a safe snapshot is within what the printer and parser can carry |
| SnapshotRoundTrip.Serialize | src/core/serialization.cpp:235-238 | the text is that of a document of the snapshot |
| SnapshotRoundTrip.ContentReadsBack | src/core/serialization.cpp:240-327 | reading the normalised document of a safe snapshot gives the same nodes under their ids, a rearrangement of its edges and its metadata |
| SnapshotRoundTrip.SavedGraphStaysWellFormed | src/core/snapshot.cpp:35-115 | the loaded graph is valid exactly when the saved one is |
| SnapshotRoundTrip.SaveAndLoad | src/core/serialization.cpp:235-327 | saving in either mode and loading, by the methods themselves, returns the same graph, its doubles rounded to six decimals, with the same verdict for every safe snapshot within bounds that are counted from the snapshot |
| ExactRoundTrip.MeasureIsKept | include/topology_fabric/json.hpp:328-337 | a measure comes back as it was if and only if six decimals suffice and it fits 64 bits when whole; a double property must also not be whole, or it comes back as an integer |
| ExactRoundTrip.SnapshotIsKeptExactly | src/core/serialization.cpp:10-47 | all nodes and edges come back as they were if and only if this holds of every measure and property, and signed properties are negative |
| SnapshotRoundTrip.TruncatedSnapshotIsRefused | src/core/serialization.cpp:240-258 | no proper beginning of a saved snapshot is ever loaded |

## Left out

- Providers (`src/providers`), CUDA and operating-system calls: their output is an arbitrary list of contributions.
- Command line, examples, benchmarks, provider registry and telemetry other than the count of generation changes.
- Floating-point rounding, infinities and the clamp of a degenerate cost to 1e15, which is modelled only for a zero
  divisor; the path theorems require non-negative costs, the cost and distance ones a reference bandwidth that is not zero.
- Hash mixing of `derive_node_id`: it is a parameter, assumed collision-free only where a lemma says so.
- Locality classes, path classes, reasons and explanations (`locality_between`, `classify_path`, `explain`): they label
  results and decide none of the properties here.
- `siblings`, `neighbors` and `max_path_length`: direct readings of the edge list, and a bound no query consults.
- Validation warnings, the text and order of messages, and the before and after texts of diff events.
- Mutexes and atomics: a discovery runs under one lock and is one step.
- The clock, random suffixes and partial-discovery flag of a discovery are parameters; `import_synthetic` is not modelled.
- Reading a decimal text as the nearest double: the exact value is read, so very small numbers do not vanish either. Edges
  and properties hold real numbers, without a negative zero, and 2^1024 less half a step stands for an infinite one.
- Locale-dependent number reading: the C library functions are modelled for the plain C locale.
- JsonTheorems.SecondPrint: is about the text only; a string that does not come back is covered by `JsonTheorems.RoundTrip`.
- SnapshotRoundTrip.SaveAndLoad: excludes capabilities and generations beyond 2^63-1, what the two lines below exclude,
  and texts that are not 7-bit or over the string limit; the bound on the length of the text is checked on the text.
- DocumentRoundTrip.PropertyReadsBack: excludes unsigned numbers beyond 2^63-1, strings that are not 7-bit and
  empty string arrays, which the reader takes for empty integer arrays.
- DocumentRoundTrip.EdgeReadsBack: excludes negative widths and generations, hop counts beyond 32 bits and peer
  capabilities beyond 2^63-1.
- JsonStrict.StrictVerdict: says nothing about what follows a string that fails before the end of the text.
- Loading.Deserialize: a double out of the 64-bit range converts to an unspecified integer in the source and to zero here.
- Documents.SnapshotToJson: the validation report is an arbitrary value, since loading ignores it; ties between parallel
  edges keep their order, where the source leaves it open.
- MergeGraph.MergeContributions: conflict messages are counted and keyed by property, not spelled out.
- Runtime.TopologyRuntime.Discover: the walk over the node map picks some machine; with several, which one is arbitrary.
