// `removeVertex` of the adjacency-list container as written (src/graph/AdjacencyListGraph.cpp:19-34).
// The structured binding of the loop at line 30 reuses the name of the parameter, so inside the
// loop the name denotes each key in turn: every list loses its own key, not the removed vertex,
// and the edge vector is left alone.

module AdjacencyListAsWritten {
  import opened GraphTypes
  import opened GraphBase
  import opened AdjacencyListGraphs

  /** The three containers of the adjacency-list graph. */
  datatype AdjState = AdjState(vertices: seq<Vertex>, adjacencyList: map<Vertex, seq<Vertex>>, edges: seq<Edge>)

  /** The as-written loop: each list loses its own key. */
  function StripOwn(adj: map<Vertex, seq<Vertex>>): (r: map<Vertex, seq<Vertex>>)
    ensures r.Keys == adj.Keys
  {
    map u | u in adj :: Remove(adj[u], u)
  }

  /** `removeVertex` as written: erase from the vector, drop the list, then run the shadowed loop. */
  function RemoveVertexAsWritten(st: AdjState, v: Vertex): (r: AdjState)
    ensures v !in r.adjacencyList && r.edges == st.edges
  {
    AdjState(WithoutVertex(st.vertices, v), StripOwn(st.adjacencyList - {v}), st.edges)
  }

  /** The lists after addVertex(1), addVertex(2), addEdge(1, 2): 1 lists 2, and 2 lists nothing. */
  function SampleLists(): map<Vertex, seq<Vertex>> {
    map[Vertex(1) := [Vertex(2)], Vertex(2) := []]
  }

  /** The edge vector after the same calls. */
  function SampleEdges(): seq<Edge> {
    [Edge(Vertex(1), Vertex(2), 0, 0)]
  }

  /** The container after addVertex(1), addVertex(2), addEdge(1, 2). */
  function Sample(): AdjState {
    AdjState([Vertex(1), Vertex(2)], SampleLists(), SampleEdges())
  }

  /** The sample is what the three calls build. */
  lemma SampleIsBuilt()
    ensures var adj := WithVertex(WithVertex(map[], Vertex(1)), Vertex(2));
            WithListedEdge(adj, Vertex(1), Vertex(2)) == SampleLists() &&
            EdgesAfterAdd(adj, [], Vertex(1), Vertex(2)) == SampleEdges() &&
            VerticesAfterAdd(VerticesAfterAdd([], map[], Vertex(1)), WithVertex(map[], Vertex(1)), Vertex(2)) == Sample().vertices
  {
    SampleListsBuilt();
    SampleEdgesBuilt();
    SampleVerticesBuilt();
  }

  /** addVertex(1) and addVertex(2) give both vertices an empty list. */
  lemma TwoEmptyLists()
    ensures WithVertex(WithVertex(map[], Vertex(1)), Vertex(2)) == map[Vertex(1) := [], Vertex(2) := []]
  {
    var adj1 := WithVertex(map[], Vertex(1));
    assert adj1 == map[Vertex(1) := []];
  }

  lemma SampleListsBuilt()
    ensures WithListedEdge(WithVertex(WithVertex(map[], Vertex(1)), Vertex(2)), Vertex(1), Vertex(2)) == SampleLists()
  {
    TwoEmptyLists();
    var adj: map<Vertex, seq<Vertex>> := map[Vertex(1) := [], Vertex(2) := []];
    assert CanAdd(adj, Vertex(1), Vertex(2));
    assert WithListedEdge(adj, Vertex(1), Vertex(2)) == adj[Vertex(1) := [] + [Vertex(2)]];
    assert [] + [Vertex(2)] == [Vertex(2)];
  }

  lemma SampleEdgesBuilt()
    ensures EdgesAfterAdd(WithVertex(WithVertex(map[], Vertex(1)), Vertex(2)), [], Vertex(1), Vertex(2)) == SampleEdges()
  {
    TwoEmptyLists();
    var adj: map<Vertex, seq<Vertex>> := map[Vertex(1) := [], Vertex(2) := []];
    var none: seq<Edge> := [];
    var e := NewPlainEdge(Vertex(1), Vertex(2));
    assert e == Edge(Vertex(1), Vertex(2), 0, 0);
    assert CanAdd(adj, Vertex(1), Vertex(2));
    assert EdgesAfterAdd(adj, none, Vertex(1), Vertex(2)) == none + [e];
    assert none + [e] == [e];
  }

  lemma SampleVerticesBuilt()
    ensures VerticesAfterAdd(VerticesAfterAdd([], map[], Vertex(1)), WithVertex(map[], Vertex(1)), Vertex(2)) == Sample().vertices
  {
    var adj1 := WithVertex(map[], Vertex(1));
    assert adj1 == map[Vertex(1) := []];
    assert VerticesAfterAdd([], map[], Vertex(1)) == [] + [Vertex(1)];
    assert [] + [Vertex(1)] == [Vertex(1)];
    assert VerticesAfterAdd([Vertex(1)], adj1, Vertex(2)) == [Vertex(1)] + [Vertex(2)];
    assert [Vertex(1)] + [Vertex(2)] == [Vertex(1), Vertex(2)];
  }

  lemma SampleHas(s: Vertex, t: Vertex)
    ensures HasEdgeIn(SampleEdges(), s, t) <==> s == Vertex(1) && t == Vertex(2)
  {
    if s == Vertex(1) && t == Vertex(2) {
      assert IsEdge(SampleEdges()[0], s, t);
    }
  }

  lemma SampleListed(s: Vertex, t: Vertex)
    ensures Listed(SampleLists(), s, t) <==> s == Vertex(1) && t == Vertex(2)
  {
    if s == Vertex(1) {
      assert SampleLists()[s] == [Vertex(2)];
    } else if s == Vertex(2) {
      assert SampleLists()[s] == [];
    }
  }

  /** The sample is a consistent container holding the edge 1 -> 2. */
  lemma SampleIsConsistent()
    ensures Consistent(Sample().vertices, SampleLists(), SampleEdges())
    ensures Listed(SampleLists(), Vertex(1), Vertex(2))
  {
    forall s, t ensures HasEdgeIn(SampleEdges(), s, t) <==> Listed(SampleLists(), s, t) {
      SampleHas(s, t);
      SampleListed(s, t);
    }
    forall u, w | u in SampleLists() && w in SampleLists()[u] ensures w in SampleLists() {
      SampleListed(u, w);
    }
    SampleListed(Vertex(1), Vertex(2));
  }

  /**
   * As written, removing vertex 2 from the sample leaves 1 -> 2 listed (so `hasEdge(1, 2)`
   * stays true) while 2 has no list any more (`hasVertex(2)` is false), and the edge vector
   * still holds the edge.
   */
  lemma AsWrittenKeepsDanglingEdge()
    ensures var r := RemoveVertexAsWritten(Sample(), Vertex(2));
            Vertex(2) !in r.adjacencyList &&
            Listed(r.adjacencyList, Vertex(1), Vertex(2)) &&
            !Closed(r.adjacencyList) &&
            HasEdgeIn(r.edges, Vertex(1), Vertex(2))
  {
    var r := RemoveVertexAsWritten(Sample(), Vertex(2));
    SampleStripped();
    assert Vertex(2) in r.adjacencyList[Vertex(1)];
    assert IsEdge(r.edges[0], Vertex(1), Vertex(2));
  }

  /** The lists the as-written removal of 2 leaves on the sample: 1 still lists 2. */
  lemma SampleStripped()
    ensures RemoveVertexAsWritten(Sample(), Vertex(2)).adjacencyList == map[Vertex(1) := [Vertex(2)]]
  {
    assert SampleLists() - {Vertex(2)} == map[Vertex(1) := [Vertex(2)]];
    RemoveAbsent([Vertex(2)], Vertex(1));
  }

  /** As written, a self-loop on any remaining vertex is lost from its list but kept in the vector. */
  lemma AsWrittenDropsSelfLoops(st: AdjState, u: Vertex, v: Vertex)
    requires u in st.adjacencyList && u != v
    ensures !Listed(RemoveVertexAsWritten(st, v).adjacencyList, u, u)
  {
    RemoveMembers(st.adjacencyList[u], u, u);
  }

  /** The intended removal on the same sample leaves no pair touching 2 and keeps the invariant. */
  lemma IntendedRemovesEdge()
    ensures var st := Sample();
            var adj := WithoutListedVertex(st.adjacencyList, Vertex(2));
            !Listed(adj, Vertex(1), Vertex(2)) &&
            Consistent(WithoutVertex(st.vertices, Vertex(2)), adj, WithoutIncident(st.edges, Vertex(2)))
  {
    SampleIsConsistent();
    var st := Sample();
    RemoveVertexKeepsLists(st.vertices, st.adjacencyList, st.edges, Vertex(2));
  }
}
