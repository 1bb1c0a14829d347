// The augmentation loop of FordFulkerson.h:94-103 as the code writes it: for every hop
// parent[v] -> v it pushes `path_flow` onto the first edge of parent[v]'s list whose
// target is v, whether or not that edge is the residual tree edge the search followed.
// With a reverse edge u -> v listed before the forward edge u -> v, the push lands on
// the reverse edge (capacity 0), the tree edge never fills, and the search finds the
// same path again on every round.

module FordFulkersonAsWritten {
  import opened GraphTypes
  import opened FlowNetworks
  import opened FlowTheory
  import opened AugmentingPaths
  import opened FordFulkerson

  /** The position in `ids` of the first edge whose target is `v`. */
  function FirstEdgeTo(es: seq<FlowEdge>, ids: seq<nat>, v: Vertex): (r: Option<nat>)
    requires forall j :: 0 <= j < |ids| ==> ids[j] < |es|
    ensures r.Some? ==> r.value < |ids| && es[ids[r.value]].target == v
    ensures r.Some? ==> forall j :: 0 <= j < r.value ==> es[ids[j]].target != v
    ensures r.None? <==> forall j :: 0 <= j < |ids| ==> es[ids[j]].target != v
  {
    if ids == [] then None
    else if es[ids[0]].target == v then Some(0)
    else match FirstEdgeTo(es, ids[1..], v)
      case None => None
      case Some(j) => Some(j + 1)
  }

  /** The walk from `v` back to the source, pushing `f` onto the first edge into each vertex. */
  ghost function AugmentAsWritten(es: seq<FlowEdge>, lists: map<Vertex, seq<nat>>, parent: map<Vertex, Vertex>,
                                  order: seq<Vertex>, source: Vertex, v: Vertex, f: int): (r: seq<FlowEdge>)
    requires Wf(es, lists) && SearchTree(parent, order, source) && v in order
    ensures Wf(r, lists) && SameShape(es, r)
    decreases IndexIn(order, v)
  {
    if v == source then es
    else
      var u := parent[v];
      var ids := ListOf(lists, u);
      ListBounds(es, lists, u);
      var es1 := match FirstEdgeTo(es, ids, v)
        case None => es
        case Some(j) => PushAt(es, ids[j], f);
      ShapeKeepsWf(es, es1, lists);
      var r := AugmentAsWritten(es1, lists, parent, order, source, u, f);
      ShapeTransitive(es, es1, r);
      r
  }

  /** One call of findAugmentingPath as written: the value it returns and the arena it leaves. */
  ghost function RoundAsWritten(es: seq<FlowEdge>, lists: map<Vertex, seq<nat>>, source: Vertex, sink: Vertex): (int, seq<FlowEdge>)
    requires Wf(es, lists)
  {
    var d := Dfs(es, lists, source);
    TreeEdgesResidual(es, lists, source, d);
    var pathFlow := Bottleneck(es, d.tree);
    if sink !in d.parent then (0, es)
    else (pathFlow, AugmentAsWritten(es, lists, d.parent, d.order, source, sink, pathFlow))
  }

  // The counterexample: base edges 2 -> 1 and 1 -> 2, each of capacity 5, source 1, sink 2.

  function Base(): seq<Edge> {
    [Edge(Vertex(2), Vertex(1), 5, 0), Edge(Vertex(1), Vertex(2), 5, 0)]
  }

  /** The arena after k as-written rounds: k pushes of 5 have landed on the reverse of 2 -> 1. */
  function Stuck(k: nat): seq<FlowEdge> {
    [FlowEdge(Vertex(1), 5, -5 * k, 1), FlowEdge(Vertex(2), 0, 5 * k, 0),
     FlowEdge(Vertex(2), 5, 0, 3), FlowEdge(Vertex(1), 0, 0, 2)]
  }

  function StuckLists(): map<Vertex, seq<nat>> {
    map[Vertex(1) := [1, 2], Vertex(2) := [0, 3]]
  }

  lemma StuckWf(k: nat)
    ensures Stuck(0) == Arena(Base())
    ensures Wf(Stuck(k), StuckLists())
  {
    var es := Stuck(k);
    assert Base()[..1] == [Edge(Vertex(2), Vertex(1), 5, 0)];
    assert Base()[..1][..0] == [];
    assert PairAt(es, 0) && PairAt(es, 1);
    StuckOwned(k);
  }

  /** Vertex 1 owns arena indices 1 and 2, vertex 2 owns 0 and 3. */
  lemma StuckOwned(k: nat)
    ensures Owned(Stuck(k), Vertex(1), 4) == [1, 2] && Owned(Stuck(k), Vertex(2), 4) == [0, 3]
  {
    var es := Stuck(k);
    assert Home(es, 0) == Vertex(2) && Home(es, 1) == Vertex(1) && Home(es, 2) == Vertex(1) && Home(es, 3) == Vertex(2);
    assert Owned(es, Vertex(1), 1) == [] && Owned(es, Vertex(2), 1) == [0];
    assert Owned(es, Vertex(1), 2) == [1];
    assert Owned(es, Vertex(2), 2) == [0];
    assert Owned(es, Vertex(1), 3) == [1, 2];
    assert Owned(es, Vertex(2), 3) == [0];
  }

  /** Whatever the search order, from 1 it discovers exactly 2, over the forward edge 1 -> 2 (arena index 2). */
  lemma StuckSearch(k: nat)
    requires Wf(Stuck(k), StuckLists())
    ensures var d := Dfs(Stuck(k), StuckLists(), Vertex(1));
      d.order == [Vertex(1), Vertex(2)] && d.parent == map[Vertex(2) := Vertex(1)] && d.tree == [2]
  {
    var es, ls := Stuck(k), StuckLists();
    var d := Dfs(es, ls, Vertex(1));
    assert Home(es, 2) == Vertex(1) && es[2].flow < es[2].capacity;
    assert Vertex(2) in d.order;
    SearchesTwo(es, ls, Vertex(1), Vertex(2), d);
    StuckHop(k);
  }

  lemma StuckHop(k: nat)
    requires Wf(Stuck(k), StuckLists())
    ensures HopOf(Stuck(k), StuckLists(), Vertex(1), Vertex(2)) == Some(2)
  {
    assert FirstResidual(Stuck(k), [1, 2], Vertex(2)) == Some(1);
  }

  /** A repetition-free sequence starting at `a`, holding `b` and otherwise only keys of a map on {a, b}, is [a, b]. */
  lemma TwoVertices(order: seq<Vertex>, lists: map<Vertex, seq<nat>>, a: Vertex, b: Vertex)
    requires a != b && |order| > 0 && order[0] == a && b in order && Distinct(order) && lists.Keys == {a, b}
    requires forall j :: 0 <= j < |order| ==> order[j] == a || order[j] in lists
    ensures order == [a, b]
  {
    DistinctWithin(order, {a, b});
    assert |{a, b}| == 2;
    assert order[1] == b by {
      assert order[0] != order[1];
    }
  }

  lemma SearchesTwoOrder(es: seq<FlowEdge>, lists: map<Vertex, seq<nat>>, a: Vertex, b: Vertex, d: DfsResult)
    requires Wf(es, lists) && TreeInv(es, lists, a, d) && a != b && lists.Keys == {a, b} && b in d.order
    ensures d.order == [a, b]
  {
    OrderInLists(es, lists, a, d);
    TwoVertices(d.order, lists, a, b);
  }

  /** In a search tree over [a, b] from a, b's parent is a. */
  lemma TwoParent(parent: map<Vertex, Vertex>, a: Vertex, b: Vertex)
    requires a != b && SearchTree(parent, [a, b], a)
    ensures parent == map[b := a]
  {
    assert parent.Keys == {b};
    assert IndexIn([a, b], b) == 1;
    assert IndexIn([a, b], parent[b]) == 0;
  }

  /** In a network of two vertices, a search from one that reaches the other is a single tree edge. */
  lemma SearchesTwo(es: seq<FlowEdge>, lists: map<Vertex, seq<nat>>, a: Vertex, b: Vertex, d: DfsResult)
    requires Wf(es, lists) && TreeInv(es, lists, a, d) && a != b && lists.Keys == {a, b} && b in d.order
    ensures d.order == [a, b] && d.parent == map[b := a] && |d.tree| == 1
    ensures HopOf(es, lists, a, b) == Some(d.tree[0])
  {
    SearchesTwoOrder(es, lists, a, b, d);
    TwoParent(d.parent, a, b);
    assert d.order[0 + 1] == b;
    assert HopOf(es, lists, d.parent[d.order[0 + 1]], d.order[0 + 1]) == Some(d.tree[0]);
  }

  /**
   * On this network the as-written round returns 5 every time and only moves the flow on
   * the reverse edge 2 <- 1 further past its capacity of 0: computeMaxFlow never stops.
   */
  lemma AsWrittenNeverTerminates(k: nat)
    ensures Wf(Stuck(k), StuckLists())
    ensures RoundAsWritten(Stuck(k), StuckLists(), Vertex(1), Vertex(2)) == (5, Stuck(k + 1))
    ensures !WithinCapacity(Stuck(k + 1))
  {
    StuckWf(k);
    StuckSearch(k);
    assert Bottleneck(Stuck(k), [2]) == 5 by {
      assert [2][..0] == [];
    }
    StuckAugment(k);
    assert Stuck(k + 1)[1].flow > Stuck(k + 1)[1].capacity;
  }

  /** The as-written walk over the tree 1 -> 2 pushes onto arena index 1, the reverse of 2 -> 1. */
  lemma StuckAugment(k: nat)
    requires Wf(Stuck(k), StuckLists())
    ensures SearchTree(map[Vertex(2) := Vertex(1)], [Vertex(1), Vertex(2)], Vertex(1))
    ensures AugmentAsWritten(Stuck(k), StuckLists(), map[Vertex(2) := Vertex(1)], [Vertex(1), Vertex(2)],
                             Vertex(1), Vertex(2), 5) == Stuck(k + 1)
  {
    var es, ls := Stuck(k), StuckLists();
    var parent, order := map[Vertex(2) := Vertex(1)], [Vertex(1), Vertex(2)];
    assert IndexIn(order, Vertex(2)) == 1;
    assert SearchTree(parent, order, Vertex(1));
    assert FirstEdgeTo(es, [1, 2], Vertex(2)) == Some(0);
    var es1 := PushAt(es, 1, 5);
    assert es1 == Stuck(k + 1);
    StuckWf(k + 1);
    assert AugmentAsWritten(es1, ls, parent, order, Vertex(1), Vertex(1), 5) == es1;
  }

  /** The tree edge the search follows and the edge the as-written loop pushes onto differ. */
  lemma AsWrittenPushesOtherEdge()
    ensures Wf(Stuck(0), StuckLists())
    ensures HopOf(Stuck(0), StuckLists(), Vertex(1), Vertex(2)) == Some(2)
    ensures FirstEdgeTo(Stuck(0), StuckLists()[Vertex(1)], Vertex(2)) == Some(0) && StuckLists()[Vertex(1)][0] == 1
  {
    StuckWf(0);
    assert FirstResidual(Stuck(0), [1, 2], Vertex(2)) == Some(1);
  }

  /** The maximum flow from 1 to 2 is 5, the value the corrected solver reaches on this network. */
  lemma StuckNetworkMaxFlow()
    ensures IsMinCutCapacity(Base(), Vertex(1), Vertex(2), 5)
  {
    var S := {Vertex(1)};
    assert Base()[..1] == [Edge(Vertex(2), Vertex(1), 5, 0)];
    assert Base()[..1][..0] == [];
    assert BaseCut(Base(), S) == 5;
    forall C: set<Vertex> | Vertex(1) in C && Vertex(2) !in C ensures 5 <= BaseCut(Base(), C) {
      assert BaseCut(Base()[..1][..0], C) == 0;
      assert BaseCut(Base()[..1], C) == 0;
    }
  }
}
