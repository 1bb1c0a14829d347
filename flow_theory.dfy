// What the three max-flow solvers promise, stated over the edge arena of FlowNetworks:
// a feasible flow, conservation, the value of the flow, the capacity of a cut, and the
// max-flow/min-cut argument that shows which value a solver returns when no augmenting
// path is left.

module FlowTheory {
  import opened GraphTypes
  import opened FlowNetworks

  /** Which edges of a vertex set a sum ranges over: all edges it owns, those leaving it, those inside it. */
  datatype Part = All | Leaving | Inside

  predicate Selected(es: seq<FlowEdge>, S: set<Vertex>, part: Part, i: nat)
    requires |es| % 2 == 0 && i < |es|
  {
    Home(es, i) in S &&
    match part
    case All => true
    case Leaving => es[i].target !in S
    case Inside => es[i].target in S
  }

  /** The flow on the selected edges among the first `n` of the arena. */
  function FlowSum(es: seq<FlowEdge>, S: set<Vertex>, part: Part, n: nat): int
    requires |es| % 2 == 0 && n <= |es|
  {
    if n == 0 then 0
    else FlowSum(es, S, part, n - 1) + (if Selected(es, S, part, n - 1) then es[n - 1].flow else 0)
  }

  /** The capacity of the selected edges among the first `n` of the arena. */
  function CapSum(es: seq<FlowEdge>, S: set<Vertex>, part: Part, n: nat): int
    requires |es| % 2 == 0 && n <= |es|
  {
    if n == 0 then 0
    else CapSum(es, S, part, n - 1) + (if Selected(es, S, part, n - 1) then es[n - 1].capacity else 0)
  }

  /** The net flow out of `v`: the flows on `v`'s own edges, reverse edges included. */
  function NetOut(es: seq<FlowEdge>, v: Vertex): int
    requires |es| % 2 == 0
  {
    FlowSum(es, {v}, All, |es|)
  }

  /** The capacity of the cut (C, everything else): edges leaving C. */
  function CutCapacity(es: seq<FlowEdge>, C: set<Vertex>): int
    requires |es| % 2 == 0
  {
    CapSum(es, C, Leaving, |es|)
  }

  /** The sum of the capacities of `v`'s edges; the value can never exceed it. */
  function CapOut(es: seq<FlowEdge>, v: Vertex): int
    requires |es| % 2 == 0
  {
    CapSum(es, {v}, All, |es|)
  }

  ghost predicate WithinCapacity(es: seq<FlowEdge>) {
    forall i :: 0 <= i < |es| ==> es[i].flow <= es[i].capacity
  }

  /** `e.flow == -e.reverse->flow` for the two edges of every pair. */
  ghost predicate SkewSymmetric(es: seq<FlowEdge>) {
    forall k: nat :: 2 * k + 1 < |es| ==> es[2 * k].flow == -es[2 * k + 1].flow
  }

  ghost predicate Feasible(es: seq<FlowEdge>) {
    Paired(es) && WithinCapacity(es) && SkewSymmetric(es)
  }

  /** Every vertex other than the source and the sink has net flow 0. */
  ghost predicate Conserves(es: seq<FlowEdge>, source: Vertex, sink: Vertex)
    requires |es| % 2 == 0
  {
    forall v :: v != source && v != sink ==> NetOut(es, v) == 0
  }

  /** No edge with residual capacity leaves S. */
  ghost predicate ResidualClosed(es: seq<FlowEdge>, S: set<Vertex>)
    requires |es| % 2 == 0
  {
    forall i :: 0 <= i < |es| && Home(es, i) in S && es[i].flow < es[i].capacity ==> es[i].target in S
  }

  /** The capacity of the cut (C, everything else) in the base graph. */
  function BaseCut(base: seq<Edge>, C: set<Vertex>): int {
    if base == [] then 0
    else
      var b := base[|base| - 1];
      BaseCut(base[..|base| - 1], C) + (if b.source in C && b.target !in C then b.capacity else 0)
  }

  /** `value` is the capacity of a minimum source/sink cut of the base graph. */
  ghost predicate IsMinCutCapacity(base: seq<Edge>, source: Vertex, sink: Vertex, value: int) {
    (forall C: set<Vertex> :: source in C && sink !in C ==> value <= BaseCut(base, C)) &&
    (exists S: set<Vertex> :: source in S && sink !in S && value == BaseCut(base, S))
  }

  // ---------------------------------------------------------------------------
  // Sums

  lemma {:induction false} CapSumShape(a: seq<FlowEdge>, b: seq<FlowEdge>, S: set<Vertex>, part: Part, n: nat)
    requires |a| % 2 == 0 && SameShape(a, b) && n <= |a|
    ensures CapSum(a, S, part, n) == CapSum(b, S, part, n)
  {
    if n > 0 {
      CapSumShape(a, b, S, part, n - 1);
      assert Home(a, n - 1) == Home(b, n - 1);
    }
  }

  /** Changing one edge's flow by `d` changes a flow sum by `d` exactly when that edge is counted. */
  lemma {:induction false} FlowSumUpdate(es: seq<FlowEdge>, j: nat, d: int, S: set<Vertex>, part: Part, n: nat)
    requires |es| % 2 == 0 && j < |es| && n <= |es|
    ensures FlowSum(es[j := es[j].(flow := es[j].flow + d)], S, part, n)
         == FlowSum(es, S, part, n) + (if j < n && Selected(es, S, part, j) then d else 0)
  {
    var es1 := es[j := es[j].(flow := es[j].flow + d)];
    if n > 0 {
      FlowSumUpdate(es, j, d, S, part, n - 1);
      assert Home(es1, n - 1) == Home(es, n - 1);
      assert Selected(es1, S, part, n - 1) == Selected(es, S, part, n - 1);
    }
  }

  /** FlowSum and CapSum only look at the first `n` edges; appending pairs changes nothing there. */
  lemma {:induction false} CapSumAppend(es: seq<FlowEdge>, more: seq<FlowEdge>, S: set<Vertex>, part: Part, n: nat)
    requires |es| % 2 == 0 && |more| % 2 == 0 && n <= |es|
    ensures CapSum(es + more, S, part, n) == CapSum(es, S, part, n)
  {
    if n > 0 {
      CapSumAppend(es, more, S, part, n - 1);
      assert Home(es + more, n - 1) == Home(es, n - 1);
    }
  }

  /** Pushing `f` along edge `i` moves `f` units of net flow from its home to its target. */
  lemma PushNetOut(es: seq<FlowEdge>, i: nat, f: int, v: Vertex)
    requires |es| % 2 == 0 && i < |es|
    ensures NetOut(PushAt(es, i, f), v)
         == NetOut(es, v) + (if Home(es, i) == v then f else 0) - (if es[i].target == v then f else 0)
  {
    var p := Partner(i);
    PartnerFacts(es, i);
    var es1 := es[i := es[i].(flow := es[i].flow + f)];
    FlowSumUpdate(es, i, f, {v}, All, |es|);
    FlowSumUpdate(es1, p, -f, {v}, All, |es|);
    assert es1[p := es1[p].(flow := es1[p].flow + -f)] == PushAt(es, i, f);
    assert Home(es1, p) == es[i].target;
  }

  lemma ShapeKeepsPaired(a: seq<FlowEdge>, b: seq<FlowEdge>)
    requires Paired(a) && SameShape(a, b)
    ensures Paired(b)
  {
    forall k: nat | 2 * k + 1 < |b| ensures PairAt(b, k) {
      assert PairAt(a, k);
    }
  }

  /** A push of at most the residual capacity keeps the flow feasible. */
  lemma PushFeasible(es: seq<FlowEdge>, i: nat, f: int)
    requires Feasible(es) && i < |es| && 0 <= f <= es[i].capacity - es[i].flow
    ensures Feasible(PushAt(es, i, f))
  {
    var r := PushAt(es, i, f);
    ShapeKeepsPaired(es, r);
    PartnerFacts(es, i);
    forall k: nat | 2 * k + 1 < |r| ensures r[2 * k].flow == -r[2 * k + 1].flow {
      assert es[2 * k].flow == -es[2 * k + 1].flow;
      if 2 * k == i || 2 * k + 1 == i {
        assert {2 * k, 2 * k + 1} == {i, Partner(i)};
      }
    }
  }

  /** Taking one member `u` out of S takes its net flow out of S's sum. */
  lemma {:induction false} SplitMember(es: seq<FlowEdge>, S: set<Vertex>, u: Vertex, n: nat)
    requires |es| % 2 == 0 && n <= |es| && u in S
    ensures FlowSum(es, S, All, n) == FlowSum(es, S - {u}, All, n) + FlowSum(es, {u}, All, n)
  {
    if n > 0 {
      SplitMember(es, S, u, n - 1);
    }
  }

  /** Under conservation, the flow out of any set that holds the source but not the sink is the value. */
  lemma {:induction false} SetOutIsValue(es: seq<FlowEdge>, source: Vertex, sink: Vertex, S: set<Vertex>)
    requires |es| % 2 == 0 && Conserves(es, source, sink) && source in S && sink !in S
    ensures FlowSum(es, S, All, |es|) == NetOut(es, source)
    decreases |S|
  {
    if S != {source} {
      var u :| u in S && u != source;
      SplitMember(es, S, u, |es|);
      assert NetOut(es, u) == 0;
      SetOutIsValue(es, source, sink, S - {u});
    }
  }

  lemma {:induction false} SplitParts(es: seq<FlowEdge>, S: set<Vertex>, n: nat)
    requires |es| % 2 == 0 && n <= |es|
    ensures FlowSum(es, S, All, n) == FlowSum(es, S, Leaving, n) + FlowSum(es, S, Inside, n)
  {
    if n > 0 {
      SplitParts(es, S, n - 1);
    }
  }

  /** The flow on edges inside a set cancels pair by pair. */
  lemma {:induction false} InsideCancels(es: seq<FlowEdge>, S: set<Vertex>, n: nat)
    requires |es| % 2 == 0 && SkewSymmetric(es) && n <= |es| && n % 2 == 0
    ensures FlowSum(es, S, Inside, n) == 0
  {
    if n > 0 {
      InsideCancels(es, S, n - 2);
      var k: nat := (n - 2) / 2;
      assert 2 * k == n - 2;
      assert es[2 * k].flow == -es[2 * k + 1].flow;
      assert Home(es, n - 2) == es[n - 1].target && Home(es, n - 1) == es[n - 2].target;
    }
  }

  lemma {:induction false} LeavingAtMost(es: seq<FlowEdge>, S: set<Vertex>, n: nat)
    requires |es| % 2 == 0 && WithinCapacity(es) && n <= |es|
    ensures FlowSum(es, S, Leaving, n) <= CapSum(es, S, Leaving, n)
  {
    if n > 0 {
      LeavingAtMost(es, S, n - 1);
    }
  }

  lemma {:induction false} LeavingSaturated(es: seq<FlowEdge>, S: set<Vertex>, n: nat)
    requires |es| % 2 == 0 && WithinCapacity(es) && ResidualClosed(es, S) && n <= |es|
    ensures FlowSum(es, S, Leaving, n) == CapSum(es, S, Leaving, n)
  {
    if n > 0 {
      LeavingSaturated(es, S, n - 1);
    }
  }

  lemma {:induction false} OwnedAtMost(es: seq<FlowEdge>, S: set<Vertex>, n: nat)
    requires |es| % 2 == 0 && WithinCapacity(es) && n <= |es|
    ensures FlowSum(es, S, All, n) <= CapSum(es, S, All, n)
  {
    if n > 0 {
      OwnedAtMost(es, S, n - 1);
    }
  }

  // ---------------------------------------------------------------------------
  // Cuts

  /** The value of a feasible flow is bounded by the capacity of every source/sink cut. */
  lemma ValueAtMostCut(es: seq<FlowEdge>, source: Vertex, sink: Vertex, C: set<Vertex>)
    requires Feasible(es) && Conserves(es, source, sink) && source in C && sink !in C
    ensures NetOut(es, source) <= CutCapacity(es, C)
  {
    SetOutIsValue(es, source, sink, C);
    SplitParts(es, C, |es|);
    InsideCancels(es, C, |es|);
    LeavingAtMost(es, C, |es|);
  }

  /** When the residual-reachable side S excludes the sink, the value equals S's cut capacity. */
  lemma ValueIsClosedCut(es: seq<FlowEdge>, source: Vertex, sink: Vertex, S: set<Vertex>)
    requires Feasible(es) && Conserves(es, source, sink) && source in S && sink !in S
    requires ResidualClosed(es, S)
    ensures NetOut(es, source) == CutCapacity(es, S)
  {
    SetOutIsValue(es, source, sink, S);
    SplitParts(es, S, |es|);
    InsideCancels(es, S, |es|);
    LeavingSaturated(es, S, |es|);
  }

  /** The value never exceeds the capacity the source owns: the solvers' termination bound. */
  lemma ValueAtMostCapOut(es: seq<FlowEdge>, source: Vertex)
    requires |es| % 2 == 0 && WithinCapacity(es)
    ensures NetOut(es, source) <= CapOut(es, source)
  {
    OwnedAtMost(es, {source}, |es|);
  }

  /** The arena's cut capacity is the base graph's: reverse edges have capacity 0. */
  lemma {:induction false} ArenaCut(base: seq<Edge>, C: set<Vertex>)
    ensures CutCapacity(Arena(base), C) == BaseCut(base, C)
  {
    if base != [] {
      var m := |base| - 1;
      var init, b := base[..m], base[m];
      var es0 := Arena(init);
      var pair := EdgePair(b.source, b.target, b.capacity, 2 * m);
      var es := es0 + pair;
      assert Arena(base) == es;
      ArenaCut(init, C);
      CapSumAppend(es0, pair, C, Leaving, 2 * m);
      assert Home(es, 2 * m) == b.source && Home(es, 2 * m + 1) == b.target;
      assert CapSum(es, C, Leaving, 2 * m + 2)
          == CapSum(es, C, Leaving, 2 * m) + (if b.source in C && b.target !in C then b.capacity else 0);
    }
  }

  lemma {:induction false} ZeroFlowSum(es: seq<FlowEdge>, S: set<Vertex>, part: Part, n: nat)
    requires |es| % 2 == 0 && n <= |es| && forall i :: 0 <= i < |es| ==> es[i].flow == 0
    ensures FlowSum(es, S, part, n) == 0
  {
    if n > 0 {
      ZeroFlowSum(es, S, part, n - 1);
    }
  }

  lemma {:induction false} ArenaFlows(base: seq<Edge>)
    ensures forall i :: 0 <= i < |Arena(base)| ==> Arena(base)[i].flow == 0
    ensures forall i :: 0 <= i < |Arena(base)| && i % 2 == 1 ==> Arena(base)[i].capacity == 0
    ensures forall k :: 0 <= k < |base| ==> Arena(base)[2 * k].capacity == base[k].capacity
  {
    if base != [] {
      ArenaFlows(base[..|base| - 1]);
    }
  }

  /** A freshly built network carries the zero flow, which is feasible and conserved when capacities are not negative. */
  lemma {:induction false} ArenaStartsFeasible(base: seq<Edge>, source: Vertex, sink: Vertex)
    requires forall j :: 0 <= j < |base| ==> base[j].capacity >= 0
    ensures Feasible(Arena(base)) && Conserves(Arena(base), source, sink)
    ensures forall v :: NetOut(Arena(base), v) == 0
  {
    var es := Arena(base);
    ArenaPaired(base);
    ArenaFlows(base);
    forall i | 0 <= i < |es| ensures es[i].flow <= es[i].capacity {
      var k := i / 2;
      if i == 2 * k {
        assert es[2 * k].capacity == base[k].capacity;
      }
    }
    forall v ensures NetOut(es, v) == 0 {
      ZeroFlowSum(es, {v}, All, |es|);
    }
  }

  /** Two values that are each the capacity of a minimum cut are equal: the solvers must agree. */
  lemma MinCutCapacityUnique(base: seq<Edge>, source: Vertex, sink: Vertex, v1: int, v2: int)
    requires IsMinCutCapacity(base, source, sink, v1) && IsMinCutCapacity(base, source, sink, v2)
    ensures v1 == v2
  {
    var S1 :| source in S1 && sink !in S1 && v1 == BaseCut(base, S1);
    var S2 :| source in S2 && sink !in S2 && v2 == BaseCut(base, S2);
    assert v1 <= BaseCut(base, S2);
    assert v2 <= BaseCut(base, S1);
  }

  /**
   * A solver that keeps the network's shape, starts from a built network and ends with a
   * residual-closed source side S without the sink returns the minimum cut capacity.
   */
  lemma ClosedCutIsMinimum(base: seq<Edge>, es: seq<FlowEdge>, source: Vertex, sink: Vertex, S: set<Vertex>)
    requires SameShape(Arena(base), es) && Feasible(es) && Conserves(es, source, sink)
    requires source in S && sink !in S && ResidualClosed(es, S)
    ensures IsMinCutCapacity(base, source, sink, NetOut(es, source))
  {
    ValueIsClosedCut(es, source, sink, S);
    CapSumShape(Arena(base), es, S, Leaving, |es|);
    ArenaCut(base, S);
    forall C: set<Vertex> | source in C && sink !in C ensures NetOut(es, source) <= BaseCut(base, C) {
      ValueAtMostCut(es, source, sink, C);
      CapSumShape(Arena(base), es, C, Leaving, |es|);
      ArenaCut(base, C);
    }
  }
}
