// The max-flow sample networks of tests/test_network.cpp (all commented out there). For each, the
// capacity of a minimum source/sink cut of the base graph, and with it the value every solver run
// that ends as the three `computeMaxFlow` methods promise must return.

module FlowSamples {
  import opened GraphTypes
  import opened FlowNetworks
  import opened FlowTheory

  /** The edge `Edge(Vertex(s), Vertex(t), c)` of a sample, with flow 0. */
  function Cap(s: int, t: int, c: int): Edge {
    Edge(Vertex(s), Vertex(t), c, 0)
  }

  /** What one base edge adds to the capacity of the cut (C, everything else). */
  function Crossing(b: Edge, C: set<Vertex>): int {
    if b.source in C && b.target !in C then b.capacity else 0
  }

  /** The capacity the edges from index `i` on add to the cut. */
  function CutFrom(base: seq<Edge>, C: set<Vertex>, i: nat): int
    decreases |base| - i
  {
    if i >= |base| then 0 else Crossing(base[i], C) + CutFrom(base, C, i + 1)
  }

  lemma {:induction false} CutFromSplit(base: seq<Edge>, C: set<Vertex>, i: nat)
    requires i <= |base|
    ensures BaseCut(base, C) == BaseCut(base[..i], C) + CutFrom(base, C, i)
    decreases |base| - i
  {
    if i == |base| {
      assert base[..i] == base;
    } else {
      CutFromSplit(base, C, i + 1);
      assert base[..i + 1][..i] == base[..i];
    }
  }

  /** The cut capacity summed front to back. */
  lemma BaseCutForward(base: seq<Edge>, C: set<Vertex>)
    ensures BaseCut(base, C) == CutFrom(base, C, 0)
  {
    CutFromSplit(base, C, 0);
  }

  /**
   * A run that keeps the shape of the network built from `base`, ends with a feasible conserved
   * flow and a residual-closed cut, and returns the growth of the source's net outflow (what
   * each `computeMaxFlow` ensures) returns the minimum cut capacity `v` of the base graph.
   */
  lemma SolverReturns(base: seq<Edge>, es: seq<FlowEdge>, source: Vertex, sink: Vertex, S: set<Vertex>,
                      maxFlow: int, v: int)
    requires forall j :: 0 <= j < |base| ==> base[j].capacity >= 0
    requires SameShape(Arena(base), es) && Feasible(es) && Conserves(es, source, sink)
    requires source in S && sink !in S && ResidualClosed(es, S)
    requires maxFlow == NetOut(es, source) - NetOut(Arena(base), source)
    requires IsMinCutCapacity(base, source, sink, v)
    ensures maxFlow == v
  {
    ArenaStartsFeasible(base, source, sink);
    ClosedCutIsMinimum(base, es, source, sink, S);
    MinCutCapacityUnique(base, source, sink, NetOut(es, source), v);
  }

  // ---- createBaseFlowGraph: source 1, sink 4 ----

  function Simple(): seq<Edge> {
    [Cap(1, 2, 10), Cap(1, 3, 10), Cap(2, 3, 2), Cap(2, 4, 8), Cap(3, 4, 10)]
  }

  /** tests/test_network.cpp:31-38: the maximum flow from 1 to 4 is 18, the cut {1, 2, 3}. */
  lemma SimpleMinCut()
    ensures IsMinCutCapacity(Simple(), Vertex(1), Vertex(4), 18)
  {
    var S := {Vertex(1), Vertex(2), Vertex(3)};
    BaseCutForward(Simple(), S);
    forall C: set<Vertex> | Vertex(1) in C && Vertex(4) !in C ensures 18 <= BaseCut(Simple(), C) {
      BaseCutForward(Simple(), C);
    }
  }

  // ---- SinglePath: source 1, sink 3 ----

  function SinglePath(): seq<Edge> {
    [Cap(1, 2, 5), Cap(2, 3, 5)]
  }

  /** tests/test_network.cpp:40-55: the maximum flow from 1 to 3 along the single path is 5. */
  lemma SinglePathMinCut()
    ensures IsMinCutCapacity(SinglePath(), Vertex(1), Vertex(3), 5)
  {
    BaseCutForward(SinglePath(), {Vertex(1)});
    forall C: set<Vertex> | Vertex(1) in C && Vertex(3) !in C ensures 5 <= BaseCut(SinglePath(), C) {
      BaseCutForward(SinglePath(), C);
    }
  }

  // ---- DiamondGraph: source 1, sink 4 ----

  function Diamond(): seq<Edge> {
    [Cap(1, 2, 7), Cap(1, 3, 4), Cap(2, 4, 5), Cap(3, 4, 8)]
  }

  /** tests/test_network.cpp:57-75: the maximum flow from 1 to 4 is 9, the cut {1, 2} (4 + 5). */
  lemma DiamondMinCut()
    ensures IsMinCutCapacity(Diamond(), Vertex(1), Vertex(4), 9)
  {
    BaseCutForward(Diamond(), {Vertex(1), Vertex(2)});
    forall C: set<Vertex> | Vertex(1) in C && Vertex(4) !in C ensures 9 <= BaseCut(Diamond(), C) {
      BaseCutForward(Diamond(), C);
    }
  }

  /** The value 11 that test expects is not the maximum flow of the diamond. */
  lemma DiamondNotEleven()
    ensures !IsMinCutCapacity(Diamond(), Vertex(1), Vertex(4), 11)
  {
    DiamondMinCut();
    if IsMinCutCapacity(Diamond(), Vertex(1), Vertex(4), 11) {
      MinCutCapacityUnique(Diamond(), Vertex(1), Vertex(4), 9, 11);
    }
  }

  // ---- ComplexGraph: source 1, sink 6 ----

  function Complex(): seq<Edge> {
    [Cap(1, 2, 16), Cap(1, 3, 13), Cap(2, 3, 10), Cap(2, 4, 12), Cap(3, 2, 4),
     Cap(3, 5, 14), Cap(4, 3, 9), Cap(4, 6, 20), Cap(5, 4, 7), Cap(5, 6, 4)]
  }

  /** tests/test_network.cpp:77-100: the maximum flow from 1 to 6 is 23, the cut {1, 2, 3, 5}. */
  lemma ComplexMinCut()
    ensures IsMinCutCapacity(Complex(), Vertex(1), Vertex(6), 23)
  {
    BaseCutForward(Complex(), {Vertex(1), Vertex(2), Vertex(3), Vertex(5)});
    forall C: set<Vertex> | Vertex(1) in C && Vertex(6) !in C ensures 23 <= BaseCut(Complex(), C) {
      BaseCutForward(Complex(), C);
    }
  }

  // ---- NoPath: source 1, sink 4 ----

  function NoPath(): seq<Edge> {
    [Cap(1, 2, 10), Cap(3, 4, 10)]
  }

  /** tests/test_network.cpp:102-118: with no path from 1 to 4 the maximum flow is 0, the cut {1, 2}. */
  lemma NoPathMinCut()
    ensures IsMinCutCapacity(NoPath(), Vertex(1), Vertex(4), 0)
  {
    BaseCutForward(NoPath(), {Vertex(1), Vertex(2)});
    forall C: set<Vertex> | Vertex(1) in C && Vertex(4) !in C ensures 0 <= BaseCut(NoPath(), C) {
      BaseCutForward(NoPath(), C);
    }
  }

  // ---- MultipleAugmentingPaths: source 1, sink 7 ----

  function Multiple(): seq<Edge> {
    [Cap(1, 2, 3), Cap(1, 4, 3), Cap(2, 3, 4), Cap(3, 7, 2), Cap(4, 5, 6),
     Cap(4, 6, 2), Cap(5, 3, 1), Cap(5, 7, 1), Cap(6, 7, 5)]
  }

  /** tests/test_network.cpp:192-214: the maximum flow from 1 to 7 is 5, the cut {1, 2, 3} (2 + 3). */
  lemma MultipleMinCut()
    ensures IsMinCutCapacity(Multiple(), Vertex(1), Vertex(7), 5)
  {
    BaseCutForward(Multiple(), {Vertex(1), Vertex(2), Vertex(3)});
    forall C: set<Vertex> | Vertex(1) in C && Vertex(7) !in C ensures 5 <= BaseCut(Multiple(), C) {
      BaseCutForward(Multiple(), C);
    }
  }

  /** The value 6 that test expects is not the maximum flow of that network. */
  lemma MultipleNotSix()
    ensures !IsMinCutCapacity(Multiple(), Vertex(1), Vertex(7), 6)
  {
    MultipleMinCut();
    if IsMinCutCapacity(Multiple(), Vertex(1), Vertex(7), 6) {
      MinCutCapacityUnique(Multiple(), Vertex(1), Vertex(7), 5, 6);
    }
  }

  // ---- LargeGraph: source 1, sink 8 ----

  function Large(): seq<Edge> {
    [Cap(1, 2, 10), Cap(1, 3, 10), Cap(1, 4, 10), Cap(2, 5, 8), Cap(2, 6, 4), Cap(3, 5, 5),
     Cap(3, 7, 7), Cap(4, 6, 6), Cap(4, 7, 9), Cap(5, 8, 10), Cap(6, 8, 10), Cap(7, 8, 10)]
  }

  /** tests/test_network.cpp:288-315: the maximum flow from 1 to 8 is 30, the cut {1}. */
  lemma LargeMinCut()
    ensures IsMinCutCapacity(Large(), Vertex(1), Vertex(8), 30)
  {
    BaseCutForward(Large(), {Vertex(1)});
    forall C: set<Vertex> | Vertex(1) in C && Vertex(8) !in C ensures 30 <= BaseCut(Large(), C) {
      BaseCutForward(Large(), C);
    }
  }
}
