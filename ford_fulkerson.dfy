// Ford-Fulkerson (include/algorithms/flowNetwork/FordFulkerson.h).
//
// findAugmentingPath runs a depth-first search over the residual network from the source,
// with a visitor whose treeEdge callback records `parent[target]` and lowers `path_flow`
// to the residual capacity of every tree edge. The depth-first search engine is not
// part of this model's sources; it is modelled here as the recursive search that follows,
// from each vertex, the edges of its adjacency list in order, taking an edge when it
// still has residual capacity and leads to an unvisited vertex.

module FordFulkerson {
  import opened GraphTypes
  import opened FlowNetworks
  import opened FlowTheory
  import opened AugmentingPaths

  /** What the search leaves behind: discovery order, parents and tree edges in report order. */
  datatype DfsResult = DfsResult(order: seq<Vertex>, parent: map<Vertex, Vertex>, tree: seq<nat>)

  /**
   * The search so far is a tree rooted at `root`, and tree edge j is the first residual
   * edge from the parent of the (j+1)-th discovered vertex to that vertex.
   */
  ghost predicate TreeInv(es: seq<FlowEdge>, lists: map<Vertex, seq<nat>>, root: Vertex, st: DfsResult)
    requires Wf(es, lists)
  {
    SearchTree(st.parent, st.order, root) &&
    |st.tree| == |st.order| - 1 &&
    forall j {:trigger st.tree[j]} :: 0 <= j < |st.tree| ==>
      st.order[j + 1] in st.parent && HopOf(es, lists, st.parent[st.order[j + 1]], st.order[j + 1]) == Some(st.tree[j])
  }

  /** When every earlier edge of the list is scanned, a residual k-th edge to a new vertex is the hop. */
  lemma HopIsFirst(es: seq<FlowEdge>, lists: map<Vertex, seq<nat>>, u: Vertex, k: nat, order: seq<Vertex>)
    requires Wf(es, lists) && Scanned(es, lists, u, k, order) && k < |ListOf(lists, u)|
    requires var i := ListOf(lists, u)[k];
      i < |es| && es[i].target !in order && es[i].flow < es[i].capacity
    ensures HopOf(es, lists, u, es[ListOf(lists, u)[k]].target) == Some(ListOf(lists, u)[k])
  {
    var ids := ListOf(lists, u);
    var t := es[ids[k]].target;
    WfFacts(es, lists);
    match FirstResidual(es, ids, t)
    case None =>
      assert false;
    case Some(k1) =>
      assert k1 == k;
  }

  /** Discovering `t` over the k-th edge of `u`'s list keeps the tree invariant. */
  lemma Discover(es: seq<FlowEdge>, lists: map<Vertex, seq<nat>>, root: Vertex, u: Vertex, k: nat, st: DfsResult)
    requires Wf(es, lists) && TreeInv(es, lists, root, st) && u in st.order
    requires Scanned(es, lists, u, k, st.order) && k < |ListOf(lists, u)|
    requires var i := ListOf(lists, u)[k];
      i < |es| && es[i].target !in st.order && es[i].flow < es[i].capacity
    ensures var i := ListOf(lists, u)[k]; var t := es[i].target;
      TreeInv(es, lists, root, DfsResult(st.order + [t], st.parent[t := u], st.tree + [i]))
    ensures var t := es[ListOf(lists, u)[k]].target;
      Unvisited(lists, root, st.order + [t]) < Unvisited(lists, root, st.order)
  {
    var ids := ListOf(lists, u);
    var i := ids[k];
    var t := es[i].target;
    var st1 := DfsResult(st.order + [t], st.parent[t := u], st.tree + [i]);
    HopIsFirst(es, lists, u, k, st.order);
    SearchTreeExtend(st.parent, st.order, root, u, t);
    WfFacts(es, lists);
    assert t in Unvisited(lists, root, st.order) && t !in Unvisited(lists, root, st1.order);
    forall j | 0 <= j < |st1.tree|
      ensures st1.order[j + 1] in st1.parent
      ensures HopOf(es, lists, st1.parent[st1.order[j + 1]], st1.order[j + 1]) == Some(st1.tree[j])
    {
      if j < |st.tree| {
        assert st1.order[j + 1] == st.order[j + 1] && st1.tree[j] == st.tree[j];
        assert st1.order[j + 1] != t;
      }
    }
  }

  /**
   * `r` extends the search `st`: still a tree, the discovery order only grew, and `u`
   * and every vertex discovered since `st` have all their residual edges leading into `r`.
   */
  ghost predicate Grown(es: seq<FlowEdge>, lists: map<Vertex, seq<nat>>, root: Vertex, u: Vertex, st: DfsResult, r: DfsResult)
    requires Wf(es, lists)
  {
    TreeInv(es, lists, root, r) && st.order <= r.order &&
    Closed(es, lists, u, r.order) &&
    forall m :: |st.order| <= m < |r.order| ==> Closed(es, lists, r.order[m], r.order)
  }

  /** Visit(u): scan `u`'s list from the start. */
  function Visit(es: seq<FlowEdge>, lists: map<Vertex, seq<nat>>, root: Vertex, u: Vertex, st: DfsResult): (r: DfsResult)
    requires Wf(es, lists) && TreeInv(es, lists, root, st) && u in st.order
    ensures Grown(es, lists, root, u, st, r)
    decreases Unvisited(lists, root, st.order), 1, 0, 0
  {
    Scan(es, lists, root, u, 0, st)
  }

  /** Scan edges k.. of `u`'s list; the edges before k are already scanned. */
  function Scan(es: seq<FlowEdge>, lists: map<Vertex, seq<nat>>, root: Vertex, u: Vertex, k: nat, st: DfsResult): (r: DfsResult)
    requires Wf(es, lists) && TreeInv(es, lists, root, st) && u in st.order && Scanned(es, lists, u, k, st.order)
    ensures Grown(es, lists, root, u, st, r)
    decreases Unvisited(lists, root, st.order), 0, |ListOf(lists, u)| - k, 1
  {
    var ids := ListOf(lists, u);
    ListBounds(es, lists, u);
    if k == |ids| then st
    else if es[ids[k]].target !in st.order && es[ids[k]].flow < es[ids[k]].capacity then
      Descend(es, lists, root, u, k, st)
    else
      Scan(es, lists, root, u, k + 1, st)
  }

  /** The k-th edge of `u` is a tree edge: record its target, visit it, then scan on. */
  function Descend(es: seq<FlowEdge>, lists: map<Vertex, seq<nat>>, root: Vertex, u: Vertex, k: nat, st: DfsResult): (r: DfsResult)
    requires Wf(es, lists) && TreeInv(es, lists, root, st) && u in st.order && Scanned(es, lists, u, k, st.order)
    requires k < |ListOf(lists, u)|
    requires var i := ListOf(lists, u)[k];
      i < |es| && es[i].target !in st.order && es[i].flow < es[i].capacity
    ensures Grown(es, lists, root, u, st, r)
    decreases Unvisited(lists, root, st.order), 0, |ListOf(lists, u)| - k, 0
  {
    var i := ListOf(lists, u)[k];
    var t := es[i].target;
    var st1 := DfsResult(st.order + [t], st.parent[t := u], st.tree + [i]);
    Discover(es, lists, root, u, k, st);
    var st2 := Visit(es, lists, root, t, st1);
    Advance(es, lists, root, u, k, st, st1, st2);
    var r := Scan(es, lists, root, u, k + 1, st2);
    NewlyClosed(es, lists, root, u, st, st1, st2, r);
    r
  }

  /** After the recursive visit of the k-th edge's target, the list is scanned one edge further and fewer vertices are left. */
  lemma Advance(es: seq<FlowEdge>, lists: map<Vertex, seq<nat>>, root: Vertex, u: Vertex, k: nat,
                st: DfsResult, st1: DfsResult, st2: DfsResult)
    requires Wf(es, lists) && Scanned(es, lists, u, k, st.order) && k < |ListOf(lists, u)|
    requires var i := ListOf(lists, u)[k];
      i < |es| && es[i].target !in st.order && st1.order == st.order + [es[i].target]
    requires st1.order <= st2.order
    ensures Scanned(es, lists, u, k + 1, st2.order)
    ensures Unvisited(lists, root, st2.order) < Unvisited(lists, root, st.order)
  {
    var t := es[ListOf(lists, u)[k]].target;
    assert st.order <= st2.order;
    assert t in st2.order by {
      assert st1.order[|st.order|] == t;
      PrefixMembers(st1.order, st2.order);
    }
    ScannedGrows(es, lists, u, k, st.order, st2.order);
    ScannedStep(es, lists, u, k, st2.order);
    assert t in lists by {
      WfFacts(es, lists);
    }
    assert Unvisited(lists, root, st2.order) <= Unvisited(lists, root, st.order) by {
      PrefixMembers(st.order, st2.order);
    }
    assert t in Unvisited(lists, root, st.order) && t !in Unvisited(lists, root, st2.order);
  }

  lemma NewlyClosed(es: seq<FlowEdge>, lists: map<Vertex, seq<nat>>, root: Vertex, u: Vertex,
                    st: DfsResult, st1: DfsResult, st2: DfsResult, r: DfsResult)
    requires Wf(es, lists)
    requires |st1.order| == |st.order| + 1 && st.order <= st1.order
    requires Grown(es, lists, root, st1.order[|st.order|], st1, st2) && Grown(es, lists, root, u, st2, r)
    ensures Grown(es, lists, root, u, st, r)
  {
    forall m | |st.order| <= m < |r.order| ensures Closed(es, lists, r.order[m], r.order) {
      if m < |st2.order| {
        assert r.order[m] == st2.order[m];
        if m == |st.order| {
          assert st2.order[m] == st1.order[m];
        }
        ClosedGrows(es, lists, r.order[m], st2.order, r.order);
      }
    }
  }

  /** The whole search from `root`: a tree whose vertex set no residual edge leaves. */
  function Dfs(es: seq<FlowEdge>, lists: map<Vertex, seq<nat>>, root: Vertex): (r: DfsResult)
    requires Wf(es, lists)
    ensures TreeInv(es, lists, root, r)
    ensures ResidualClosed(es, set x | x in r.order)
  {
    var st0 := DfsResult([root], map[], []);
    var r := Visit(es, lists, root, root, st0);
    forall i | 0 <= i < |es| && Home(es, i) in r.order && es[i].flow < es[i].capacity
      ensures es[i].target in r.order
    {
      InHomeList(es, lists, i);
      var w := Home(es, i);
      var m := IndexIn(r.order, w);
      assert m == 0 ==> w == root;
      assert Closed(es, lists, w, r.order);
      var j :| 0 <= j < |ListOf(lists, w)| && ListOf(lists, w)[j] == i;
    }
    r
  }

  /** The search only discovers vertices that have adjacency lists, besides the root. */
  lemma OrderInLists(es: seq<FlowEdge>, lists: map<Vertex, seq<nat>>, root: Vertex, st: DfsResult)
    requires Wf(es, lists) && TreeInv(es, lists, root, st)
    ensures forall j :: 0 <= j < |st.order| ==> st.order[j] == root || st.order[j] in lists
  {
    WfFacts(es, lists);
    forall j | 0 < j < |st.order| ensures st.order[j] in lists {
      assert HopOf(es, lists, st.parent[st.order[(j - 1) + 1]], st.order[(j - 1) + 1]) == Some(st.tree[j - 1]);
    }
  }

  /** `path_flow`: INT_MAX lowered to the residual capacity of each tree edge in turn. */
  function Bottleneck(es: seq<FlowEdge>, tree: seq<nat>): (r: int)
    requires forall j :: 0 <= j < |tree| ==> tree[j] < |es|
    ensures r <= IntMax
    ensures forall j :: 0 <= j < |tree| ==> r <= es[tree[j]].capacity - es[tree[j]].flow
    ensures r == IntMax || exists j :: 0 <= j < |tree| && r == es[tree[j]].capacity - es[tree[j]].flow
  {
    if tree == [] then IntMax
    else
      var last := tree[|tree| - 1];
      Min(Bottleneck(es, tree[..|tree| - 1]), es[last].capacity - es[last].flow)
  }

  lemma TreeEdgesResidual(es: seq<FlowEdge>, lists: map<Vertex, seq<nat>>, root: Vertex, st: DfsResult)
    requires Wf(es, lists) && TreeInv(es, lists, root, st)
    ensures forall j :: 0 <= j < |st.tree| ==> st.tree[j] < |es| && es[st.tree[j]].flow < es[st.tree[j]].capacity
  {
    forall j | 0 <= j < |st.tree| ensures st.tree[j] < |es| && es[st.tree[j]].flow < es[st.tree[j]].capacity {
      assert HopOf(es, lists, st.parent[st.order[j + 1]], st.order[j + 1]) == Some(st.tree[j]);
    }
  }

  /** Every discovered non-root vertex hangs off a tree edge, whose residual capacity bounds the bottleneck. */
  lemma TreeHop(es: seq<FlowEdge>, lists: map<Vertex, seq<nat>>, root: Vertex, st: DfsResult, w: Vertex)
    requires Wf(es, lists) && TreeInv(es, lists, root, st) && w in st.parent
    ensures HopResidual(es, lists, st.parent[w], w) >= Bottleneck(es, st.tree)
  {
    var k := IndexIn(st.order, w);
    var j := k - 1;
    assert st.order[j + 1] == w;
    assert HopOf(es, lists, st.parent[st.order[j + 1]], st.order[j + 1]) == Some(st.tree[j]);
  }

  lemma BottleneckPositive(es: seq<FlowEdge>, tree: seq<nat>)
    requires forall j :: 0 <= j < |tree| ==> tree[j] < |es| && es[tree[j]].flow < es[tree[j]].capacity
    ensures Bottleneck(es, tree) > 0
  {
  }

  /** The bottleneck is positive and no larger than the residual capacity of any hop on the tree path to `v`. */
  lemma PathHops(es: seq<FlowEdge>, lists: map<Vertex, seq<nat>>, root: Vertex, st: DfsResult, v: Vertex)
    requires Wf(es, lists) && TreeInv(es, lists, root, st) && v in st.parent
    ensures Bottleneck(es, st.tree) > 0
    ensures HopsAtLeast(es, lists, PathFrom(st.parent, st.order, root, v), Bottleneck(es, st.tree), 0)
  {
    TreeEdgesResidual(es, lists, root, st);
    BottleneckPositive(es, st.tree);
    var p := PathFrom(st.parent, st.order, root, v);
    forall m | 0 <= m < |p| - 1 ensures HopResidual(es, lists, p[m + 1], p[m]) >= Bottleneck(es, st.tree) {
      TreeHop(es, lists, root, st, p[m]);
    }
  }

  /**
   * One call of `findAugmentingPath` on the arena `es`, as a value: the flow it returns and
   * the arena it leaves. When the search misses the sink, 0 and `es` unchanged; otherwise the
   * smallest residual capacity over all tree edges, pushed along the tree path to the sink.
   */
  ghost function Round(es: seq<FlowEdge>, lists: map<Vertex, seq<nat>>, source: Vertex, sink: Vertex): (r: (int, seq<FlowEdge>))
    requires Wf(es, lists)
    ensures Wf(r.1, lists) && SameShape(es, r.1) && 0 <= r.0 <= IntMax
    ensures r.0 == 0 <==> sink !in Dfs(es, lists, source).parent
    ensures r.0 == 0 ==> r.1 == es
  {
    var d := Dfs(es, lists, source);
    TreeEdgesResidual(es, lists, source, d);
    if sink !in d.parent then (0, es)
    else
      BottleneckPositive(es, d.tree);
      (Bottleneck(es, d.tree), PushAlong(es, lists, d.parent, d.order, source, sink, Bottleneck(es, d.tree)))
  }

  /** The solver object: it holds the network it augments. */
  class FordFulkersonSolver {
    const network: FlowNetwork

    constructor (network: FlowNetwork)
      ensures this.network == network
    {
      this.network := network;
    }

    /**
     * `findAugmentingPath`, with the augmentation pushing onto each hop's first edge that
     * still has residual capacity (the tree edge). Returns 0, changing nothing, exactly when
     * the sink is not reachable; then the reached set is a residual-closed source side.
     */
    method FindAugmentingPath(source: Vertex, sink: Vertex) returns (pathFlow: int, ghost reached: set<Vertex>)
      requires network.Valid() && Feasible(network.edges)
      modifies network
      ensures network.Valid() && Feasible(network.edges) && network.lists == old(network.lists)
      ensures SameShape(old(network.edges), network.edges)
      ensures (pathFlow, network.edges) == Round(old(network.edges), old(network.lists), source, sink)
      ensures 0 <= pathFlow <= IntMax && (source == sink ==> pathFlow == 0)
      ensures pathFlow == 0 ==> network.edges == old(network.edges) && source in reached
                                && (sink !in reached <==> sink != source) && ResidualClosed(network.edges, reached)
      ensures pathFlow > 0 ==>
        forall x :: NetOut(network.edges, x)
          == old(NetOut(network.edges, x)) + (if x == source then pathFlow else 0) - (if x == sink then pathFlow else 0)
    {
      var r := Dfs(network.edges, network.lists, source);
      TreeEdgesResidual(network.edges, network.lists, source, r);
      pathFlow := Bottleneck(network.edges, r.tree);
      if sink !in r.parent {
        assert sink in r.order <==> sink == source;
        return 0, set x | x in r.order;
      }
      PathHops(network.edges, network.lists, source, r, sink);
      Augment(network, r.parent, r.order, source, sink, pathFlow);
      reached := {};
    }

    /**
     * `computeMaxFlow`: augments until no path is left. The result is the value gained,
     * and the final flow's value equals the capacity of a cut and is bounded by every cut.
     */
    method ComputeMaxFlow(source: Vertex, sink: Vertex) returns (maxFlow: int, ghost cut: set<Vertex>)
      requires network.Valid() && Feasible(network.edges) && Conserves(network.edges, source, sink)
      modifies network
      ensures network.Valid() && Feasible(network.edges) && Conserves(network.edges, source, sink)
      ensures SameShape(old(network.edges), network.edges)
      ensures maxFlow == NetOut(network.edges, source) - old(NetOut(network.edges, source))
      ensures source == sink ==> maxFlow == 0 && network.edges == old(network.edges)
      ensures source != sink ==> source in cut && sink !in cut && ResidualClosed(network.edges, cut)
      ensures source != sink ==> NetOut(network.edges, source) == CutCapacity(network.edges, cut)
      ensures forall C: set<Vertex> :: source in C && sink !in C ==> NetOut(network.edges, source) <= CutCapacity(network.edges, C)
    {
      ghost var es0 := network.edges;
      maxFlow := 0;
      while true
        invariant network.Valid() && Feasible(network.edges) && Conserves(network.edges, source, sink)
        invariant SameShape(es0, network.edges)
        invariant maxFlow == NetOut(network.edges, source) - NetOut(es0, source)
        invariant source == sink ==> network.edges == es0
        decreases CapOut(network.edges, source) - NetOut(network.edges, source)
      {
        ValueAtMostCapOut(network.edges, source);
        ghost var before := network.edges;
        var pathFlow, reached := FindAugmentingPath(source, sink);
        if pathFlow == 0 {
          cut := reached;
          break;
        }
        CapSumShape(before, network.edges, {source}, All, |before|);
        ShapeTransitive(es0, before, network.edges);
        maxFlow := maxFlow + pathFlow;
      }
      if source != sink {
        ValueIsClosedCut(network.edges, source, sink, cut);
      }
      forall C: set<Vertex> | source in C && sink !in C
        ensures NetOut(network.edges, source) <= CutCapacity(network.edges, C)
      {
        ValueAtMostCut(network.edges, source, sink, C);
      }
    }
  }
}
