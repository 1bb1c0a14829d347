// `removeVertex` of the adjacency-matrix container as written (src/graph/AdjacencyMatrixGraph.cpp:35-61).
// It erases the vertex, its row and column and its forward index, and closes up the forward
// indices, but it leaves `indexToVertex` as it was and keeps the edges touching the vertex in
// the edge vector. The neighbour loops name matrix columns through `indexToVertex`, so after a
// removal every column above the erased one is reported under the name of the vertex before it.

module AdjacencyMatrixAsWritten {
  import opened GraphTypes
  import opened GraphBase
  import opened AdjacencyMatrixGraphs

  /** The five containers of the adjacency-matrix graph. */
  datatype MatState = MatState(
    vertices: seq<Vertex>,
    vertexToIndex: map<Vertex, nat>,
    indexToVertex: map<nat, Vertex>,
    adjacencyMatrix: seq<seq<bool>>,
    edges: seq<Edge>)

  ghost predicate Valid(st: MatState) {
    Consistent(st.vertices, st.vertexToIndex, st.indexToVertex, st.adjacencyMatrix, st.edges)
  }

  /** `removeVertex` as written: the map back and the edge vector are left alone. */
  function RemoveVertexAsWritten(st: MatState, v: Vertex): (r: MatState)
    requires Valid(st)
    ensures r.indexToVertex == st.indexToVertex && r.edges == st.edges
    ensures v !in r.vertexToIndex
  {
    if v !in st.vertexToIndex then st
    else
      IndexOf(st.vertices, st.vertexToIndex, st.indexToVertex, v);
      var k := st.vertexToIndex[v];
      MatState(WithoutVertex(st.vertices, v), Renumbered(st.vertexToIndex - {v}, k),
               st.indexToVertex, Shrunk(st.adjacencyMatrix, k), st.edges)
  }

  const V1 := Vertex(1)
  const V2 := Vertex(2)
  const V3 := Vertex(3)

  /** The matrix after addVertex(1), addVertex(2), addVertex(3), addEdge(1, 3). */
  function SampleMatrix(): seq<seq<bool>> {
    [[false, false, true], [false, false, false], [false, false, false]]
  }

  /** The container after the same calls. */
  function Sample(): MatState {
    MatState([V1, V2, V3], map[V1 := 0, V2 := 1, V3 := 2], map[0 := V1, 1 := V2, 2 := V3],
             SampleMatrix(), [Edge(V1, V3, 0, 0)])
  }

  /** The sample matrix is what three `addVertex` calls and `addEdge(1, 3)` build. */
  lemma SampleMatrixIsBuilt()
    ensures SetEntry(Grown(Grown(Grown([]))), 0, 2, true) == SampleMatrix()
  {
    var f1, f2, f3 := seq(1, _ => false), seq(2, _ => false), seq(3, _ => false);
    assert f1 == [false] && f2 == [false, false] && f3 == [false, false, false];
    var g1 := Grown([]);
    assert g1 == [] + [f1];
    var g2 := Grown(g1);
    assert |g2| == 2 && g2[0] == g1[0] + [false] == [false, false] && g2[1] == f2;
    assert g2 == [[false, false], [false, false]];
    var g3 := Grown(g2);
    assert |g3| == 3 && g3[0] == g2[0] + [false] == [false, false, false];
    assert g3[1] == g2[1] + [false] == [false, false, false] && g3[2] == f3;
    assert g3 == [[false, false, false], [false, false, false], [false, false, false]];
    var r := SetEntry(g3, 0, 2, true);
    assert r[0] == [false, false, false][2 := true] == [false, false, true];
    assert r == [[false, false, true], g3[1], g3[2]];
  }

  lemma SampleHas(s: Vertex, t: Vertex)
    ensures HasEdgeIn(Sample().edges, s, t) <==> s == V1 && t == V3
  {
    if s == V1 && t == V3 {
      assert IsEdge(Sample().edges[0], s, t);
    }
  }

  /** The sample satisfies the invariant of the container. */
  lemma SampleIsConsistent()
    ensures Valid(Sample())
  {
    SampleIndexed();
    SampleAgrees();
    SampleWellFormed();
  }

  /** The sample's two maps are in step with its vertex vector. */
  lemma SampleIndexed()
    ensures Indexed(Sample().vertices, Sample().vertexToIndex, Sample().indexToVertex)
  {
    var vs, vti, itv := [V1, V2, V3], map[V1 := 0, V2 := 1, V3 := 2], map[0 := V1, 1 := V2, 2 := V3];
    assert V1 != V2 && V1 != V3 && V2 != V3;
    assert DistinctVertices(vs);
    forall v ensures v in vti <==> v in vs {
      assert v in vs <==> v == V1 || v == V2 || v == V3;
    }
    forall k | 0 <= k < |vs| ensures vs[k] in vti && vti[vs[k]] == k && k in itv && itv[k] == vs[k] {
      assert k == 0 || k == 1 || k == 2;
    }
  }

  /** The sample matrix is square and sets exactly the entry of the edge 1 -> 3. */
  lemma SampleAgrees()
    ensures |SampleMatrix()| == |Sample().vertices| && Square(SampleMatrix())
    ensures Agrees(Sample().vertices, SampleMatrix(), Sample().edges)
  {
    var st := Sample();
    var vs, m := st.vertices, SampleMatrix();
    forall i, j | 0 <= i < |vs| && 0 <= j < |vs| ensures Entry(m, i, j) <==> HasEdgeIn(st.edges, vs[i], vs[j]) {
      SampleHas(vs[i], vs[j]);
      assert (vs[i] == V1 && vs[j] == V3) <==> (i == 0 && j == 2);
    }
  }

  /** The sample's single edge runs between listed vertices. */
  lemma SampleWellFormed()
    ensures WellFormed(Sample().vertices, Sample().edges)
  {
    var st := Sample();
    assert DistinctVertices(st.vertices);
    assert EndpointsListed(st.vertices, st.edges) by {
      assert st.edges[0].source == st.vertices[0] && st.edges[0].target == st.vertices[2];
    }
  }

  /**
   * As written, removing vertex 2 from the sample keeps 1 -> 3 in the matrix, but the neighbour
   * loop names the only set entry of row 1 by the stale map back: it reports vertex 2, which is
   * no longer a vertex, instead of vertex 3.
   */
  lemma AsWrittenReportsRemovedVertex()
    ensures var r := (SampleIsConsistent(); RemoveVertexAsWritten(Sample(), V2));
            V2 !in r.vertexToIndex && V1 in r.vertexToIndex &&
            MatrixHas(r.vertexToIndex, r.adjacencyMatrix, V1, V3) &&
            r.vertexToIndex[V1] < |r.adjacencyMatrix| &&
            Named(r.indexToVertex, r.adjacencyMatrix[r.vertexToIndex[V1]]) == [V2]
  {
    SampleIsConsistent();
    SampleRemoved();
    var st := Sample();
    var row := [false, true];
    assert row[..1] == [false] && [false][..0] == [];
    assert Named(st.indexToVertex, [false]) == Named(st.indexToVertex, []) + [];
    assert Named(st.indexToVertex, row) == Named(st.indexToVertex, [false]) + [V2];
  }

  /** The forward map and the matrix after the as-written removal of vertex 2 from the sample. */
  lemma SampleRemoved()
    ensures var r := (SampleIsConsistent(); RemoveVertexAsWritten(Sample(), V2));
            r.vertexToIndex == map[V1 := 0, V3 := 1] && r.adjacencyMatrix == [[false, true], [false, false]] &&
            r.indexToVertex == Sample().indexToVertex
  {
    SampleIsConsistent();
    SampleRenumbered();
    SampleShrunk();
  }

  /** Closing up the forward indices above 1 once vertex 2 is erased. */
  lemma SampleRenumbered()
    ensures Renumbered(Sample().vertexToIndex - {V2}, 1) == map[V1 := 0, V3 := 1]
  {
    var rest := Sample().vertexToIndex - {V2};
    assert rest == map[V1 := 0, V3 := 2];
    var vti := Renumbered(rest, 1);
    assert vti.Keys == {V1, V3};
    assert vti[V1] == 0 && vti[V3] == 1;
  }

  /** Erasing row and column 1 of the sample matrix. */
  lemma SampleShrunk()
    ensures Shrunk(SampleMatrix(), 1) == [[false, true], [false, false]]
  {
    var m := Shrunk(SampleMatrix(), 1);
    assert EraseAt(SampleMatrix(), 1) == [[false, false, true], [false, false, false]];
    assert m[0] == EraseAt([false, false, true], 1) == [false, true];
    assert m[1] == EraseAt([false, false, false], 1) == [false, false];
  }

  /** The intended removal on the same sample reports vertex 3 as the neighbour of 1, and not 2. */
  lemma IntendedReportsTarget()
    ensures var st := Sample();
            var k := st.vertexToIndex[V2];
            var vs := EraseAt(st.vertices, k);
            var vti := Renumbered(st.vertexToIndex - {V2}, k);
            var itv := map i | 0 <= i < |vs| :: vs[i];
            k < |st.adjacencyMatrix| && V1 in vti && vti[V1] < |vs| &&
            var row := Shrunk(st.adjacencyMatrix, k)[vti[V1]];
            V3 in Named(itv, row) && V2 !in Named(itv, row)
  {
    SampleIsConsistent();
    var st := Sample();
    var k := st.vertexToIndex[V2];
    var vs := EraseAt(st.vertices, k);
    var vti := Renumbered(st.vertexToIndex - {V2}, k);
    var itv := map i | 0 <= i < |vs| :: vs[i];
    var es := WithoutIncident(st.edges, V2);
    RemoveVertexKeepsMatrix(st.vertices, st.vertexToIndex, st.indexToVertex, st.adjacencyMatrix, st.edges, V2);
    RemoveVertexKeeps(st.vertices, st.edges, V2);
    SampleHas(V1, V3);
    SampleHas(V1, V2);
    assert V1 in vti by { assert vs[0] == V1; }
    NamedRowIsTargets(vs, vti, itv, Shrunk(st.adjacencyMatrix, k), es, V1, V3);
    NamedRowIsTargets(vs, vti, itv, Shrunk(st.adjacencyMatrix, k), es, V1, V2);
  }
}
