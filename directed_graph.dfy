// The directed container (src/graph/DirectedGraph.cpp). Its addEdge, removeEdge and hasEdge
// have the bodies of the base container's, so the model keeps one base `Graph` and adds
// the neighbour lists, which here check that the vertex is present.

module DirectedGraphs {
  import opened GraphTypes
  import opened GraphBase

  class DirectedGraph {
    /** The inherited vertex and edge vectors with their operations. */
    const base: Graph

    ghost predicate Valid()
      reads this, base
    {
      base.Valid()
    }

    constructor ()
      ensures Valid() && fresh(base) && base.vertices == [] && base.edges == []
    {
      base := new Graph();
    }

    /** `getNeighborsIterator`: empty for an absent vertex, otherwise the targets in edge order. */
    method GetNeighbors(v: Vertex) returns (neighbors: seq<Vertex>)
      ensures neighbors == if base.HasVertex(v) then Targets(base.edges, v) else []
      ensures forall w :: w in neighbors <==> base.HasVertex(v) && base.HasEdge(v, w)
    {
      neighbors := [];
      if base.HasVertex(v) {
        neighbors := base.GetNeighbors(v);
      }
    }

    /** `getFilteredNeighborsIterator`: empty for an absent vertex, otherwise the neighbours passing `keep`. */
    method GetFilteredNeighbors(v: Vertex, keep: Vertex -> bool) returns (neighbors: seq<Vertex>)
      ensures neighbors == if base.HasVertex(v) then Filter(Targets(base.edges, v), keep) else []
    {
      neighbors := [];
      if base.HasVertex(v) {
        neighbors := base.GetFilteredNeighbors(v, keep);
      }
    }
  }

  /** `hasEdge` is directional: adding 1 -> 2 to a graph without edges does not make 2 -> 1 an edge. */
  lemma DirectionalAdd(vs: seq<Vertex>, a: Vertex, b: Vertex)
    requires a in vs && b in vs && a != b
    ensures HasEdgeIn(AddedEdge(vs, [], a, b), a, b)
    ensures !HasEdgeIn(AddedEdge(vs, [], a, b), b, a)
  {
    AddedEdgeHas(vs, [], a, b, a, b);
    AddedEdgeHas(vs, [], a, b, b, a);
  }

  /** `removeEdge(s, t)` leaves the opposite edge `t -> s` alone. */
  lemma RemoveKeepsOpposite(es: seq<Edge>, s: Vertex, t: Vertex)
    requires s != t
    ensures HasEdgeIn(WithoutEdge(es, s, t), t, s) <==> HasEdgeIn(es, t, s)
    ensures !HasEdgeIn(WithoutEdge(es, s, t), s, t)
  {
    WithoutEdgeHas(es, s, t, t, s);
    WithoutEdgeHas(es, s, t, s, t);
  }
}
