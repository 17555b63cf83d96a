// The priority queue of Dijkstra's algorithm: (cost, id) pairs, smallest first.

module Queues {
  import opened Types

  datatype QueueEntry = QueueEntry(cost: real, id: NodeId)

  predicate EntryLess(a: QueueEntry, b: QueueEntry) {
    a.cost < b.cost || (a.cost == b.cost && IdLess(a.id, b.id))
  }

  // Takes out an entry that no other entry precedes.
  method PopMin(pq: multiset<QueueEntry>) returns (top: QueueEntry, rest: multiset<QueueEntry>)
    requires pq != multiset{}
    ensures top in pq && rest == pq - multiset{top}
    ensures forall e :: e in pq ==> !EntryLess(e, top)
  {
    top :| top in pq;
    var left := pq - multiset{top};
    while left != multiset{}
      invariant left <= pq && top in pq
      invariant forall e :: e in pq && e !in left ==> !EntryLess(e, top)
      decreases |left|
    {
      var e :| e in left;
      left := left[e := 0];
      if EntryLess(e, top) {
        top := e;
      }
    }
    rest := pq - multiset{top};
  }
}
