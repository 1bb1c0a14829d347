// Two graphs from tests/test_bellman_ford.cpp, settled by the general theorems: the three-vertex
// negative cycle throws, and a negative self-loop that cannot be reached does not.

module BellmanFordSamples {
  import opened GraphTypes
  import opened ShortestWalks
  import opened BellmanFord
  import opened BellmanFordTheory

  const V0 := Vertex(0)
  const V1 := Vertex(1)
  const V2 := Vertex(2)

  /** Edges 0 -> 1 (1), 1 -> 2 (-2), 2 -> 0 (-1): a cycle of weight -2. */
  function CycleEdges(): seq<WeightedEdge> {
    [NewWeightedEdge(V0, V1, 1), NewWeightedEdge(V1, V2, -2), NewWeightedEdge(V2, V0, -1)]
  }

  /** tests/test_bellman_ford.cpp:55-65: the run throws. */
  lemma NegativeCycleThrows()
    ensures BellmanFordResult([V0, V1, V2], CycleEdges(), V0).Err?
  {
    var ws := CycleEdges();
    assert Listed([V0, V1, V2], ws);
    assert IsWalk(ws, [], V0, V0);
    assert IsWalk(ws, ws, V0, V0);
    assert ws[..1][..0] == [] && Weight(ws[..1]) == 1;
    assert ws[..2][..1] == ws[..1] && Weight(ws[..2]) == -1;
    assert ws[..3] == ws && Weight(ws) == -2;
    BellmanFordDetects([V0, V1, V2], ws, V0);
  }

  /** Self-loops 0 -> 0 (1) and 1 -> 1 (-1). */
  function LoopEdges(): seq<WeightedEdge> {
    [NewWeightedEdge(V0, V0, 1), NewWeightedEdge(V1, V1, -1)]
  }

  /** Every walk from 0 repeats the loop at 0. */
  lemma {:induction false} StaysAtZero(p: seq<WeightedEdge>, v: Vertex)
    requires IsWalk(LoopEdges(), p, V0, v)
    ensures v == V0 && forall i :: 0 <= i < |p| ==> p[i] == LoopEdges()[0]
    decreases |p|
  {
    if p != [] {
      var q := p[..|p| - 1];
      WalkPrefix(LoopEdges(), p, V0, v, |p| - 1);
      var u := Node(p, V0, |p| - 1);
      StaysAtZero(q, u);
      assert p[|p| - 1].source == u by {
        if |p| > 1 {
          assert p[|p| - 2].target == p[|p| - 1].source;
        }
      }
      assert p[|p| - 1] in LoopEdges();
    }
  }

  lemma NoCycleFromZero()
    ensures !NegativeCycleFrom(LoopEdges(), V0)
  {
    forall p, c, v | IsWalk(LoopEdges(), p, V0, v) && IsWalk(LoopEdges(), c, v, v) ensures Weight(c) >= 0 {
      StaysAtZero(p, v);
      StaysAtZero(c, v);
      WeightNonNegative(c);
    }
  }

  /**
   * tests/test_bellman_ford.cpp:141-151: the negative loop at 1 cannot be reached from 0, so
   * nothing is thrown; 0 is at distance 0 and 1 stays at INF.
   */
  lemma SelfLoopsUnreached()
    ensures var r := BellmanFordResult([V0, V1], LoopEdges(), V0);
            r.Ok? && r.value[V0] == Fin(0) && r.value[V1] == Inf
  {
    var vs, ws := [V0, V1], LoopEdges();
    assert Listed(vs, ws);
    NoCycleFromZero();
    BellmanFordDetects(vs, ws, V0);
    BellmanFordShortest(vs, ws, V0);
    var r := BellmanFordResult(vs, ws, V0);
    assert IsWalk(ws, [], V0, V0);
    forall p | IsWalk(ws, p, V0, V1) ensures false {
      StaysAtZero(p, V1);
    }
    assert ShortestIs(ws, V0, V0, r.value[V0]);
    var p :| IsWalk(ws, p, V0, V0) && Weight(p) == r.value[V0].value;
    StaysAtZero(p, V0);
    WeightNonNegative(p);
  }
}
