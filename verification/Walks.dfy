// Walks and search trees.

module Walks {
  import opened Types

  // One traversal of an edge, in either direction.
  datatype Step = Step(from: NodeId, to: NodeId, edge: nat)

  // The steps a search may take and what each costs.
  type Network = map<Step, real>

  ghost predicate NonNegative(g: Network) {
    forall st :: st in g ==> g[st] >= 0.0
  }

  // w leads from a to b by steps of g, each starting where the previous one ended.
  ghost predicate IsWalk(g: Network, a: NodeId, b: NodeId, w: seq<Step>)
    decreases |w|
  {
    if w == [] then a == b
    else
      var last := w[|w| - 1];
      last in g && last.to == b && IsWalk(g, a, last.from, w[..|w| - 1])
  }

  ghost function WalkCost(g: Network, w: seq<Step>): real {
    if w == [] then 0.0
    else
      var last := w[|w| - 1];
      WalkCost(g, w[..|w| - 1]) + if last in g then g[last] else 0.0
  }

  ghost predicate Connected(g: Network, a: NodeId, b: NodeId) {
    exists w :: IsWalk(g, a, b, w)
  }

  // w is a walk from a to b and no walk between them costs less.
  ghost predicate IsCheapestWalk(g: Network, a: NodeId, b: NodeId, w: seq<Step>) {
    IsWalk(g, a, b, w) && forall v :: IsWalk(g, a, b, v) ==> WalkCost(g, w) <= WalkCost(g, v)
  }

  ghost predicate VisitsNoNodeTwice(w: seq<Step>) {
    forall i, j :: 0 <= i <= j < |w| ==> w[i].from != w[j].to
  }

  // The recursive definition says what one expects of the individual steps.
  lemma {:induction false} WalkStepByStep(g: Network, a: NodeId, b: NodeId, w: seq<Step>)
    ensures IsWalk(g, a, b, w) <==>
            if w == [] then a == b
            else w[0].from == a && w[|w| - 1].to == b &&
                 (forall i :: 0 <= i < |w| ==> w[i] in g) &&
                 (forall i :: 0 <= i < |w| - 1 ==> w[i].to == w[i + 1].from)
    decreases |w|
  {
    if |w| > 1 {
      var p := w[..|w| - 1];
      WalkStepByStep(g, a, w[|w| - 1].from, p);
      assert forall i :: 0 <= i < |p| ==> p[i] == w[i];
    }
  }

  lemma ExtendWalk(g: Network, a: NodeId, w: seq<Step>, st: Step)
    requires st in g && IsWalk(g, a, st.from, w)
    ensures IsWalk(g, a, st.to, w + [st])
    ensures WalkCost(g, w + [st]) == WalkCost(g, w) + g[st]
  {
    assert (w + [st])[..|w|] == w;
  }

  lemma {:induction false} JoinWalks(g: Network, a: NodeId, b: NodeId, c: NodeId, v: seq<Step>, w: seq<Step>)
    requires IsWalk(g, a, b, v) && IsWalk(g, b, c, w)
    ensures IsWalk(g, a, c, v + w)
    ensures WalkCost(g, v + w) == WalkCost(g, v) + WalkCost(g, w)
    decreases |w|
  {
    if w == [] {
      assert v + w == v;
    } else {
      var p := w[..|w| - 1];
      JoinWalks(g, a, b, w[|w| - 1].from, v, p);
      assert (v + w)[..|v + w| - 1] == v + p;
    }
  }

  lemma {:induction false} WalkCostNonNegative(g: Network, w: seq<Step>)
    requires NonNegative(g)
    ensures WalkCost(g, w) >= 0.0
  {
    if w != [] {
      WalkCostNonNegative(g, w[..|w| - 1]);
    }
  }

  // ---- Reversal ---------------------------------------------------------------

  function Turn(st: Step): Step {
    Step(st.to, st.from, st.edge)
  }

  function Reverse(w: seq<Step>): (r: seq<Step>)
    ensures |r| == |w|
  {
    if w == [] then [] else [Turn(w[|w| - 1])] + Reverse(w[..|w| - 1])
  }

  // Every step may also be taken backwards (not necessarily at the same cost).
  ghost predicate Bidirectional(g: Network) {
    forall st :: st in g ==> Turn(st) in g
  }

  lemma {:induction false} ReverseWalk(g: Network, a: NodeId, b: NodeId, w: seq<Step>)
    requires Bidirectional(g) && IsWalk(g, a, b, w)
    ensures IsWalk(g, b, a, Reverse(w))
    decreases |w|
  {
    if w != [] {
      var last := w[|w| - 1];
      ReverseWalk(g, a, last.from, w[..|w| - 1]);
      var back := Turn(last);
      assert [back][..0] == [];
      assert IsWalk(g, b, last.from, [back]);
      JoinWalks(g, b, last.from, a, [back], Reverse(w[..|w| - 1]));
    }
  }

  // ---- Search labels ------------------------------------------------------------

  // What a label-setting search knows: the expanded nodes, the cost of the best walk found to
  // each labelled node, and that walk itself (the parent chain read from the start node).
  datatype Labels = Labels(done: set<NodeId>, dist: map<NodeId, real>, tree: map<NodeId, seq<Step>>)

  // The walk of a labelled node extends the walk of an expanded node by one step, so parents
  // of a labelled node can no longer change.
  ghost predicate ChainsToDone(L: Labels, v: NodeId)
    requires v in L.tree
  {
    var w := L.tree[v];
    w != [] && w[|w| - 1].from in L.done && w[|w| - 1].from in L.tree && w[..|w| - 1] == L.tree[w[|w| - 1].from]
  }

  ghost predicate LabelledWalk(g: Network, from: NodeId, L: Labels, v: NodeId)
    requires v in L.tree && v in L.dist
  {
    IsWalk(g, from, v, L.tree[v]) && WalkCost(g, L.tree[v]) == L.dist[v]
  }

  ghost predicate TreeOk(g: Network, from: NodeId, L: Labels) {
    && L.tree.Keys == L.dist.Keys
    && L.done <= L.dist.Keys
    && from in L.dist && L.dist[from] == 0.0 && L.tree[from] == []
    && (forall v :: v in L.dist ==> LabelledWalk(g, from, L, v))
    && (forall v :: v in L.dist && v != from ==> ChainsToDone(L, v))
  }

  // Everything one step from x is labelled at least as cheaply as through x.
  ghost predicate Expanded(g: Network, L: Labels, x: NodeId)
    requires x in L.dist
  {
    forall st :: st in g && st.from == x ==> st.to in L.dist && L.dist[st.to] <= L.dist[x] + g[st]
  }

  ghost predicate Optimal(g: Network, from: NodeId, x: NodeId, d: real) {
    forall w :: IsWalk(g, from, x, w) ==> d <= WalkCost(g, w)
  }

  ghost predicate Settled(g: Network, from: NodeId, L: Labels) {
    && TreeOk(g, from, L)
    && (forall x :: x in L.done ==> Expanded(g, L, x))
    && (forall x :: x in L.done ==> Optimal(g, from, x, L.dist[x]))
  }

  // m bounds the labels of all nodes still waiting to be expanded.
  ghost predicate FrontierAbove(L: Labels, m: real) {
    forall x :: x in L.dist && x !in L.done ==> m <= L.dist[x]
  }

  // The cut argument: a walk either stays among expanded nodes or leaves through the frontier.
  lemma {:induction false} CrossFrontier(g: Network, from: NodeId, L: Labels, m: real, y: NodeId, w: seq<Step>)
    requires NonNegative(g) && Settled(g, from, L) && FrontierAbove(L, m)
    requires IsWalk(g, from, y, w)
    ensures (y in L.done && L.dist[y] <= WalkCost(g, w)) || m <= WalkCost(g, w)
    decreases |w|
  {
    if w == [] {
    } else {
      var last := w[|w| - 1];
      CrossFrontier(g, from, L, m, last.from, w[..|w| - 1]);
      if last.from in L.done && L.dist[last.from] <= WalkCost(g, w[..|w| - 1]) {
        assert Expanded(g, L, last.from);
      }
    }
  }

  // The cheapest waiting node carries its final label.
  lemma FrontierMinimumIsOptimal(g: Network, from: NodeId, L: Labels, u: NodeId)
    requires NonNegative(g) && Settled(g, from, L)
    requires u in L.dist && u !in L.done && FrontierAbove(L, L.dist[u])
    ensures Optimal(g, from, u, L.dist[u])
    ensures IsCheapestWalk(g, from, u, L.tree[u])
  {
    forall w | IsWalk(g, from, u, w)
      ensures L.dist[u] <= WalkCost(g, w)
    {
      CrossFrontier(g, from, L, L.dist[u], u, w);
    }
    assert LabelledWalk(g, from, L, u);
  }

  // When nothing waits, every node that can be reached has been expanded.
  lemma EmptyFrontier(g: Network, from: NodeId, L: Labels, y: NodeId)
    requires NonNegative(g) && Settled(g, from, L)
    requires L.dist.Keys <= L.done && y !in L.done
    ensures !Connected(g, from, y)
  {
    forall w | IsWalk(g, from, y, w)
      ensures false
    {
      CrossFrontier(g, from, L, WalkCost(g, w) + 1.0, y, w);
    }
  }

  // ---- Label updates --------------------------------------------------------------

  function StartLabels(from: NodeId): Labels {
    Labels({}, map[from := 0.0], map[from := []])
  }

  lemma StartLabelsSettled(g: Network, from: NodeId)
    ensures Settled(g, from, StartLabels(from))
  {
    assert LabelledWalk(g, from, StartLabels(from), from);
  }

  function Improve(L: Labels, st: Step, d: real): Labels
    requires st.from in L.tree
  {
    L.(dist := L.dist[st.to := d], tree := L.tree[st.to := L.tree[st.from] + [st]])
  }

  lemma ImproveKeepsWalk(g: Network, from: NodeId, L: Labels, st: Step, v: NodeId)
    requires TreeOk(g, from, L)
    requires st in g && st.from in L.done && st.to !in L.done
    requires v in L.dist || v == st.to
    ensures LabelledWalk(g, from, Improve(L, st, L.dist[st.from] + g[st]), v)
  {
    if v == st.to {
      assert LabelledWalk(g, from, L, st.from);
      ExtendWalk(g, from, L.tree[st.from], st);
    } else {
      assert LabelledWalk(g, from, L, v);
    }
  }

  lemma ImproveKeepsChain(g: Network, from: NodeId, L: Labels, st: Step, d: real, v: NodeId)
    requires TreeOk(g, from, L)
    requires st.from in L.done && st.to !in L.done && v != from
    requires v in L.dist || v == st.to
    ensures ChainsToDone(Improve(L, st, d), v)
  {
    if v == st.to {
      assert (L.tree[st.from] + [st])[..|L.tree[st.from]|] == L.tree[st.from];
    } else {
      assert ChainsToDone(L, v);
    }
  }

  // Lowering the label of a node that was not expanded keeps every other walk intact.
  lemma ImproveKeepsTree(g: Network, from: NodeId, L: Labels, st: Step)
    requires TreeOk(g, from, L)
    requires st in g && st.from in L.done && st.to !in L.done && st.to != from
    ensures TreeOk(g, from, Improve(L, st, L.dist[st.from] + g[st]))
  {
    var M := Improve(L, st, L.dist[st.from] + g[st]);
    forall v | v in M.dist
      ensures LabelledWalk(g, from, M, v)
    {
      ImproveKeepsWalk(g, from, L, st, v);
    }
    forall v | v in M.dist && v != from
      ensures ChainsToDone(M, v)
    {
      ImproveKeepsChain(g, from, L, st, L.dist[st.from] + g[st], v);
    }
  }

  // An expanded node is never improved: its label is already the optimum.
  lemma ImprovableIsWaiting(g: Network, from: NodeId, L: Labels, st: Step)
    requires NonNegative(g) && TreeOk(g, from, L)
    requires forall x :: x in L.done ==> Optimal(g, from, x, L.dist[x])
    requires st in g && st.from in L.done
    requires st.to in L.dist ==> L.dist[st.from] + g[st] < L.dist[st.to]
    ensures st.to !in L.done && st.to != from
  {
    hide IsWalk, WalkCost, LabelledWalk, ChainsToDone;
    ExtendLabel(g, from, L, st);
    WalkCostNonNegative(g, L.tree[st.from] + [st]);
  }

  lemma ExtendLabel(g: Network, from: NodeId, L: Labels, st: Step)
    requires TreeOk(g, from, L) && st in g && st.from in L.tree && st.from in L.dist
    ensures IsWalk(g, from, st.to, L.tree[st.from] + [st])
    ensures WalkCost(g, L.tree[st.from] + [st]) == L.dist[st.from] + g[st]
  {
    assert LabelledWalk(g, from, L, st.from);
    ExtendWalk(g, from, L.tree[st.from], st);
  }

  // Labels only move down, so nodes expanded earlier stay expanded.
  lemma ImproveKeepsExpanded(g: Network, L: Labels, st: Step, d: real, x: NodeId)
    requires st.from in L.tree && st.to != x && x in L.dist && Expanded(g, L, x)
    requires st.to in L.dist ==> d <= L.dist[st.to]
    ensures Expanded(g, Improve(L, st, d), x)
  {
  }

  // ---- Parent chains ------------------------------------------------------------------

  // The walk of the i-th node on a labelled walk is the part of it before that node.
  lemma {:induction false} WalksNest(g: Network, from: NodeId, L: Labels, v: NodeId, i: nat)
    requires TreeOk(g, from, L) && v in L.tree && i < |L.tree[v]|
    ensures L.tree[v][i].from in L.done && L.tree[v][i].from in L.tree
    ensures L.tree[L.tree[v][i].from] == L.tree[v][..i]
    decreases |L.tree[v]|
  {
    assert ChainsToDone(L, v);
    var w := L.tree[v];
    var u := w[|w| - 1].from;
    if i < |w| - 1 {
      assert L.tree[u][i] == w[i];
      WalksNest(g, from, L, u, i);
      assert L.tree[u][..i] == w[..i];
    }
  }

  // Zero-cost steps included, a parent chain never returns to a node: each node on it has a
  // walk of its own length.
  lemma LabelledWalksAreSimple(g: Network, from: NodeId, L: Labels, v: NodeId)
    requires TreeOk(g, from, L) && v in L.tree
    ensures VisitsNoNodeTwice(L.tree[v])
  {
    hide IsWalk, ChainsToDone;
    var w := L.tree[v];
    assert LabelledWalk(g, from, L, v);
    WalkStepByStep(g, from, v, w);
    forall i, j | 0 <= i <= j < |w|
      ensures w[i].from != w[j].to
    {
      WalksNest(g, from, L, v, i);
      if j < |w| - 1 {
        WalksNest(g, from, L, v, j + 1);
        assert w[j].to == w[j + 1].from;
      }
    }
  }
}
