// Bellman-Ford single-source shortest paths with negative-cycle detection
// (include/algorithms/find_distance/BellmanFord.h). The distance map is an `unordered_map` whose
// `operator[]` inserts a 0 for a key it does not hold, so reading a missing vertex both yields 0
// and adds that vertex to the result. The INF sentinel `numeric_limits<int>::max()` is `Inf`.

module BellmanFord {
  import opened GraphTypes
  import opened WeightedGraphs

  /** The distance map. */
  type Distances = map<Vertex, Dist>

  /** `numeric_limits<size_t>::max()`: `size() - 1` for an empty vertex list wraps to it. */
  const SizeMax: int := 0xFFFF_FFFF_FFFF_FFFF

  /** `distances[v]` as a value: a key the map does not hold reads as 0. */
  function At(d: Distances, v: Vertex): Dist {
    if v in d then d[v] else Fin(0)
  }

  /** The map after `distances[v]` was evaluated: a missing key is inserted with value 0. */
  function Touch(d: Distances, v: Vertex): (r: Distances)
    ensures r.Keys == d.Keys + {v}
    ensures forall x :: At(r, x) == At(d, x)
  {
    if v in d then d else d[v := Fin(0)]
  }

  /** Lines 28-30: every listed vertex at INF. */
  function Unset(vs: seq<Vertex>): Distances
    decreases |vs|
  {
    if vs == [] then map[] else Unset(vs[..|vs| - 1])[vs[|vs| - 1] := Inf]
  }

  /** Lines 27-31: the map before the first round. */
  function Initial(vs: seq<Vertex>, start: Vertex): Distances {
    Unset(vs)[start := Fin(0)]
  }

  /** The test of lines 35-36 and 43-44: the source is finite and going through the edge is shorter. */
  predicate Relaxable(d: Distances, e: WeightedEdge) {
    At(d, e.source).Fin? && Less(AddWeight(At(d, e.source), e.weight), At(d, e.target))
  }

  /** The map after the test has read its operands: `&&` reads the target only for a finite source. */
  function AfterReads(d: Distances, e: WeightedEdge): Distances {
    if At(d, e.source).Inf? then Touch(d, e.source) else Touch(Touch(d, e.source), e.target)
  }

  /** Lines 35-38: relax one edge. */
  function Relax(d: Distances, e: WeightedEdge): Distances {
    var t := AfterReads(d, e);
    if Relaxable(d, e) then t[e.target := AddWeight(At(d, e.source), e.weight)] else t
  }

  /** Lines 34-39: one round, relaxing the edges in order. */
  function Round(d: Distances, ws: seq<WeightedEdge>): Distances
    decreases |ws|
  {
    if ws == [] then d else Relax(Round(d, ws[..|ws| - 1]), ws[|ws| - 1])
  }

  /** `k` rounds. */
  function Rounds(d: Distances, ws: seq<WeightedEdge>, k: nat): Distances {
    if k == 0 then d else Round(Rounds(d, ws, k - 1), ws)
  }

  /** Line 33: `size() - 1` rounds, computed in `size_t`. */
  function RoundCount(n: nat): nat {
    if n == 0 then SizeMax else n - 1
  }

  /** Lines 42-47: the first edge still relaxable throws; otherwise the map after all the reads. */
  function Check(d: Distances, ws: seq<WeightedEdge>): Result<Distances>
    decreases |ws|
  {
    if ws == [] then Ok(d)
    else
      match Check(d, ws[..|ws| - 1])
      case Err(m) => Err(m)
      case Ok(d1) =>
        if Relaxable(d1, ws[|ws| - 1]) then Err("negative cycle") else Ok(AfterReads(d1, ws[|ws| - 1]))
  }

  /** What `BellmanFord(graph, start)` returns or throws. */
  function BellmanFordResult(vs: seq<Vertex>, ws: seq<WeightedEdge>, start: Vertex): Result<Distances> {
    Check(Rounds(Initial(vs, start), ws, RoundCount(|vs|)), ws)
  }

  /** Once an edge has thrown, the check throws the same error. */
  lemma {:induction false} CheckErrSticks(d: Distances, ws: seq<WeightedEdge>, k: nat)
    requires k <= |ws| && Check(d, ws[..k]).Err?
    ensures Check(d, ws) == Check(d, ws[..k])
    decreases |ws| - k
  {
    if k < |ws| {
      var init := ws[..|ws| - 1];
      assert init[..k] == ws[..k];
      CheckErrSticks(d, init, k);
    } else {
      assert ws[..k] == ws;
    }
  }

  /** Reading `distances[e.source]` and, for a finite source, `distances[e.target]`. */
  method ReadOperands(d: Distances, e: WeightedEdge) returns (t: Distances, source: Dist, target: Dist)
    ensures t == AfterReads(d, e) && source == At(d, e.source)
    ensures source.Fin? ==> target == At(d, e.target)
  {
    t := d;
    if e.source !in t {
      t := t[e.source := Fin(0)];
    }
    source := t[e.source];
    target := Inf;
    if source.Fin? {
      if e.target !in t {
        t := t[e.target := Fin(0)];
      }
      target := t[e.target];
    }
  }

  /** Lines 27-31. */
  method Initialize(vs: seq<Vertex>, start: Vertex) returns (distances: Distances)
    ensures distances == Initial(vs, start)
  {
    distances := map[];
    for j := 0 to |vs|
      invariant distances == Unset(vs[..j])
    {
      assert vs[..j + 1][..j] == vs[..j];
      distances := distances[vs[j] := Inf];
    }
    assert vs[..|vs|] == vs;
    distances := distances[start := Fin(0)];
  }

  /** Lines 34-39: one round over the edges in order. */
  method RelaxRound(d: Distances, ws: seq<WeightedEdge>) returns (distances: Distances)
    ensures distances == Round(d, ws)
  {
    distances := d;
    for k := 0 to |ws|
      invariant distances == Round(d, ws[..k])
    {
      assert ws[..k + 1][..k] == ws[..k];
      var e := ws[k];
      var t, source, target := ReadOperands(distances, e);
      distances := t;
      if source.Fin? && Less(Fin(source.value + e.weight), target) {
        distances := distances[e.target := Fin(source.value + e.weight)];
      }
    }
    assert ws[..|ws|] == ws;
  }

  /** Lines 42-47: throw at the first edge that can still be relaxed. */
  method CheckEdges(d: Distances, ws: seq<WeightedEdge>) returns (r: Result<Distances>)
    ensures r == Check(d, ws)
  {
    var distances := d;
    for k := 0 to |ws|
      invariant Check(d, ws[..k]) == Ok(distances)
    {
      assert ws[..k + 1][..k] == ws[..k];
      var e := ws[k];
      var t, source, target := ReadOperands(distances, e);
      if source.Fin? && Less(Fin(source.value + e.weight), target) {
        CheckErrSticks(d, ws, k + 1);
        return Err("negative cycle");
      }
      distances := t;
    }
    assert ws[..|ws|] == ws;
    r := Ok(distances);
  }

  /** `BellmanFord(graph, start)`: the distance map, or `runtime_error` for a negative cycle. */
  method Run(graph: WeightedGraph, start: Vertex) returns (r: Result<Distances>)
    ensures r == BellmanFordResult(graph.vertices, graph.edges, start)
  {
    var vs, ws := graph.vertices, graph.edges;
    var distances := Initialize(vs, start);
    ghost var d0 := distances;
    var rounds: nat := if |vs| == 0 then SizeMax else |vs| - 1;
    var i := 0;
    while i < rounds
      invariant 0 <= i <= rounds && distances == Rounds(d0, ws, i)
    {
      distances := RelaxRound(distances, ws);
      i := i + 1;
    }
    r := CheckEdges(distances, ws);
  }
}
