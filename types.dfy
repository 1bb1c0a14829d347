// Value types shared by every graph container and algorithm (include/graph/Graph.h),
// plus the small result wrappers used to model C++ exceptions and the INF sentinel.

module GraphTypes {

  /** A vertex is its integer id; equality and hashing are by id. */
  datatype Vertex = Vertex(id: int)

  /** A directed edge with a capacity and a current flow. */
  datatype Edge = Edge(source: Vertex, target: Vertex, capacity: int, flow: int)

  /** An edge of a weighted graph: its capacity is always 0. */
  datatype WeightedEdge = WeightedEdge(source: Vertex, target: Vertex, capacity: int, flow: int, weight: int)

  /** `Edge(source, target, capacity)`: a new edge carries no flow. */
  function NewEdge(source: Vertex, target: Vertex, capacity: int): (e: Edge)
    ensures e.source == source && e.target == target
    ensures e.capacity == capacity && e.flow == 0
    ensures Residual(e) == capacity
  {
    Edge(source, target, capacity, 0)
  }

  /** `Edge(source, target)`: the capacity defaults to 0. */
  function NewPlainEdge(source: Vertex, target: Vertex): (e: Edge)
    ensures e.source == source && e.target == target
    ensures e.capacity == 0 && e.flow == 0 && Residual(e) == 0
  {
    NewEdge(source, target, 0)
  }

  /** `WeightedEdge(source, target, weight)`; the two-argument form passes weight 0. */
  function NewWeightedEdge(source: Vertex, target: Vertex, weight: int): (e: WeightedEdge)
    ensures e.source == source && e.target == target && e.weight == weight
    ensures e.capacity == 0 && e.flow == 0
  {
    WeightedEdge(source, target, 0, 0, weight)
  }

  /** `operator==` on edges compares the endpoints only. */
  predicate SameEndpoints(a: Edge, b: Edge) {
    a.source == b.source && a.target == b.target
  }

  /** `Edge::residual()`: capacity minus flow. */
  function Residual(e: Edge): int {
    e.capacity - e.flow
  }

  lemma EdgeEqualityIgnoresCapacity(s: Vertex, t: Vertex, c1: int, c2: int)
    ensures SameEndpoints(NewEdge(s, t, c1), NewEdge(s, t, c2))
    ensures !SameEndpoints(NewEdge(s, t, c1), NewEdge(t, s, c2)) <==> s != t
  {
  }

  /** A distance in the shortest-path algorithms: INF or a finite value. */
  datatype Dist = Inf | Fin(value: int)

  /** `a < b` where INF is larger than every finite value and not smaller than itself. */
  predicate Less(a: Dist, b: Dist) {
    match a
    case Inf => false
    case Fin(x) => b.Inf? || x < b.value
  }

  predicate AtMost(a: Dist, b: Dist) {
    !Less(b, a)
  }

  /** `a + w` for a finite `a`; INF stays INF. */
  function AddWeight(a: Dist, w: int): Dist {
    match a
    case Inf => Inf
    case Fin(x) => Fin(x + w)
  }

  /** Models a C++ exception or an error return. */
  datatype Result<T> = Ok(value: T) | Err(error: string)

  datatype Option<T> = None | Some(value: T)

  /** `std::numeric_limits<int>::max()`, the initial bottleneck of an augmenting path. */
  const IntMax: int := 0x7fff_ffff

  function Min(a: int, b: int): int {
    if a <= b then a else b
  }
}
