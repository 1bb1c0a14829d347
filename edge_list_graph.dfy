// The edge-list container (src/graph/EdgeListGraph.cpp): the base vectors plus a hash set of
// the vertices, which hasVertex consults instead of the vector.

module EdgeListGraphs {
  import opened GraphTypes
  import opened GraphBase

  /** The set and the vector hold the same vertices. */
  ghost predicate SameVertices(set_: set<Vertex>, vs: seq<Vertex>) {
    forall x :: x in set_ <==> x in vs
  }

  class EdgeListGraph {
    var vertices: seq<Vertex>
    var verticesSet: set<Vertex>
    var edges: seq<Edge>

    ghost predicate Valid()
      reads this
    {
      WellFormed(vertices, edges) && SameVertices(verticesSet, vertices)
    }

    constructor ()
      ensures Valid() && vertices == [] && verticesSet == {} && edges == []
    {
      vertices := [];
      verticesSet := {};
      edges := [];
    }

    /** `hasVertex`: a lookup in the set only. */
    predicate HasVertex(v: Vertex)
      reads this
    {
      v in verticesSet
    }

    /** `hasEdge`: directional membership of (source, target). */
    predicate HasEdge(source: Vertex, target: Vertex)
      reads this
    {
      HasEdgeIn(edges, source, target)
    }

    /** `addVertex`: insert into the vector and the set, only when the id is absent. */
    method AddVertex(v: Vertex)
      requires Valid()
      modifies this`vertices, this`verticesSet
      ensures Valid()
      ensures vertices == AddedVertex(old(vertices), v) && verticesSet == old(verticesSet) + {v}
      ensures HasVertex(v)
    {
      AddVertexKeeps(vertices, edges, v);
      if !HasVertex(v) {
        vertices := vertices + [v];
        verticesSet := verticesSet + {v};
      }
    }

    /** `removeVertex`: a no-op when absent; otherwise drop the id from both and every edge touching it. */
    method RemoveVertex(v: Vertex)
      requires Valid()
      modifies this
      ensures Valid() && !HasVertex(v)
      ensures old(HasVertex(v)) ==>
        vertices == WithoutVertex(old(vertices), v) && edges == WithoutIncident(old(edges), v) &&
        verticesSet == old(verticesSet) - {v}
      ensures !old(HasVertex(v)) ==> vertices == old(vertices) && edges == old(edges) && verticesSet == old(verticesSet)
    {
      if HasVertex(v) {
        RemoveVertexKeeps(vertices, edges, v);
        vertices := WithoutVertex(vertices, v);
        verticesSet := verticesSet - {v};
        edges := WithoutIncident(edges, v);
      }
    }

    /** `addEdge`: as in the directed container. */
    method AddEdge(source: Vertex, target: Vertex)
      requires Valid()
      modifies this`edges
      ensures Valid() && edges == AddedEdge(vertices, old(edges), source, target)
    {
      AddEdgeKeeps(vertices, edges, source, target);
      if HasVertex(source) && HasVertex(target) && !HasEdge(source, target) {
        edges := edges + [NewPlainEdge(source, target)];
      }
    }

    /** `removeEdge`: as in the directed container. */
    method RemoveEdge(source: Vertex, target: Vertex)
      requires Valid()
      modifies this`edges
      ensures Valid() && edges == WithoutEdge(old(edges), source, target)
    {
      RemoveEdgeKeeps(vertices, edges, source, target);
      edges := WithoutEdge(edges, source, target);
    }

    /** `getNeighborsIterator`: empty for an absent vertex, otherwise the targets in edge order. */
    method GetNeighbors(v: Vertex) returns (neighbors: seq<Vertex>)
      requires Valid()
      ensures neighbors == if HasVertex(v) then Targets(edges, v) else []
      ensures forall w :: w in neighbors <==> HasEdge(v, w)
    {
      neighbors := [];
      if HasVertex(v) {
        var i := 0;
        while i < |edges|
          invariant 0 <= i <= |edges|
          invariant neighbors == Targets(edges[..i], v)
        {
          TargetsAppend(edges[..i], edges[i], v);
          assert edges[..i + 1] == edges[..i] + [edges[i]];
          if edges[i].source == v {
            neighbors := neighbors + [edges[i].target];
          }
          i := i + 1;
        }
        assert edges[..i] == edges;
      }
      forall w ensures w in neighbors <==> HasEdge(v, w) {
        TargetsMembers(edges, v, w);
      }
    }

    /** `getFilteredNeighborsIterator`: empty for an absent vertex, otherwise the neighbours passing `keep`. */
    method GetFilteredNeighbors(v: Vertex, keep: Vertex -> bool) returns (neighbors: seq<Vertex>)
      ensures neighbors == if HasVertex(v) then Filter(Targets(edges, v), keep) else []
    {
      neighbors := [];
      if HasVertex(v) {
        var i := 0;
        while i < |edges|
          invariant 0 <= i <= |edges|
          invariant neighbors == FilteredTargets(edges[..i], v, keep)
        {
          FilteredTargetsAppend(edges[..i], edges[i], v, keep);
          assert edges[..i + 1] == edges[..i] + [edges[i]];
          if edges[i].source == v && keep(edges[i].target) {
            neighbors := neighbors + [edges[i].target];
          }
          i := i + 1;
        }
        assert edges[..i] == edges;
        FilteredTargetsFilter(edges, v, keep);
      }
    }
  }
}
