// FloydWarshall(graph) (include/algorithms/find_distance/FloydWarshall.h): the n-by-n distance
// matrix is filled in place, first with INF, the zero diagonal and the edge weights, then by the
// k-i-j triple loop. The matrix is an `array2`; ghost matrices and witness routes follow it step
// by step so that each cell update is one step of the theory.

module FloydWarshall {
  import opened GraphTypes
  import opened ShortestWalks
  import opened WeightedGraphs
  import opened FloydWarshallTheory

  /** The square array holds the matrix `D`. */
  ghost predicate Holds(a: array2<Dist>, D: Matrix)
    reads a
  {
    a.Length0 == a.Length1 && Square(D, a.Length0) &&
    forall x, y :: 0 <= x < a.Length0 && 0 <= y < a.Length1 ==> a[x, y] == D[x][y]
  }

  /** The cells of `Base(n)`. */
  lemma BaseShape(n: nat)
    ensures Square(Base(n), n)
    ensures forall x, y :: 0 <= x < n && 0 <= y < n ==> Base(n)[x][y] == if x == y then Fin(0) else Inf
  {
  }

  /** Lines 22-29: INF everywhere and 0 on the diagonal. */
  method Fresh(n: nat) returns (a: array2<Dist>)
    ensures fresh(a) && a.Length0 == n && Holds(a, Base(n))
  {
    a := new Dist[n, n]((x, y) => Inf);
    for i := 0 to n
      invariant forall x, y :: 0 <= x < n && 0 <= y < n ==> a[x, y] == if x == y && x < i then Fin(0) else Inf
    {
      a[i, i] := Fin(0);
    }
    BaseShape(n);
  }

  /** Line 31 for one edge: `distance[s][t] = v`. */
  method Place(a: array2<Dist>, ghost D: Matrix, s: nat, t: nat, v: Dist)
    requires Holds(a, D) && s < a.Length0 && t < a.Length0
    modifies a
    ensures Holds(a, Put(D, s, t, v))
  {
    a[s, t] := v;
  }

  /** Lines 22-33: INF everywhere, 0 on the diagonal, then each edge's weight in order. */
  method Initialize(n: nat, ws: seq<WeightedEdge>) returns (a: array2<Dist>)
    requires InRange(ws, n)
    ensures fresh(a) && a.Length0 == n && Holds(a, InitialMatrix(n, ws))
  {
    a := Fresh(n);
    for k := 0 to |ws|
      invariant Holds(a, Written(Base(n), ws[..k]))
    {
      assert ws[..k + 1][..k] == ws[..k];
      var e := ws[k];
      assert e in ws;
      Place(a, Written(Base(n), ws[..k]), e.source.id, e.target.id, Fin(e.weight));
    }
    assert ws[..|ws|] == ws;
  }

  /** Lines 38-41 for one cell. */
  method Cell(a: array2<Dist>, ghost M0: Matrix, ghost D: Matrix, ghost W: Routes, k: nat, i: nat, j: nat)
    returns (ghost D1: Matrix, ghost W1: Routes)
    requires Holds(a, D) && i < a.Length0 && j < a.Length0 && k < a.Length0
    requires Below(D, M0, a.Length0) && Witnessed(M0, D, W, a.Length0)
    requires NoNegativeCycle(M0) ==> Progress(M0, D, a.Length0, k, i, j)
    modifies a
    ensures D1 == Update(D, i, j, k) && W1 == Stretch(D, W, a.Length0, i, j, k)
    ensures Holds(a, D1) && Below(D1, M0, a.Length0) && Witnessed(M0, D1, W1, a.Length0)
    ensures NoNegativeCycle(M0) ==> Progress(M0, D1, a.Length0, k, i, j + 1)
  {
    ghost var n := a.Length0;
    var viaK, toJ, direct := a[i, k], a[k, j], a[i, j];
    if viaK.Fin? && toJ.Fin? && Less(Fin(viaK.value + toJ.value), direct) {
      a[i, j] := Fin(viaK.value + toJ.value);
    }
    D1, W1 := Update(D, i, j, k), Stretch(D, W, n, i, j, k);
    CellWitnessed(M0, D, W, n, i, j, k);
    CellBelow(D, M0, n, i, j, k);
    if NoNegativeCycle(M0) {
      CellProgress(M0, D, n, i, j, k);
    }
  }

  /** Lines 37-41: one row of round `k`. */
  method Row(a: array2<Dist>, ghost M0: Matrix, ghost D: Matrix, ghost W: Routes, k: nat, i: nat)
    returns (ghost D1: Matrix, ghost W1: Routes)
    requires Holds(a, D) && i < a.Length0 && k < a.Length0
    requires Below(D, M0, a.Length0) && Witnessed(M0, D, W, a.Length0)
    requires NoNegativeCycle(M0) ==> Progress(M0, D, a.Length0, k, i, 0)
    modifies a
    ensures Holds(a, D1) && Below(D1, M0, a.Length0) && Witnessed(M0, D1, W1, a.Length0)
    ensures NoNegativeCycle(M0) ==> Progress(M0, D1, a.Length0, k, i + 1, 0)
  {
    D1, W1 := D, W;
    for j := 0 to a.Length1
      invariant Holds(a, D1) && Below(D1, M0, a.Length0) && Witnessed(M0, D1, W1, a.Length0)
      invariant NoNegativeCycle(M0) ==> Progress(M0, D1, a.Length0, k, i, j)
    {
      D1, W1 := Cell(a, M0, D1, W1, k, i, j);
    }
    if NoNegativeCycle(M0) {
      RowDone(M0, D1, a.Length0, k, i);
    }
  }

  /** Lines 36-43: round `k`. */
  method Round(a: array2<Dist>, ghost M0: Matrix, ghost D: Matrix, ghost W: Routes, k: nat)
    returns (ghost D1: Matrix, ghost W1: Routes)
    requires Holds(a, D) && k < a.Length0
    requires Below(D, M0, a.Length0) && Witnessed(M0, D, W, a.Length0)
    requires NoNegativeCycle(M0) ==> Progress(M0, D, a.Length0, k, 0, 0)
    modifies a
    ensures Holds(a, D1) && Below(D1, M0, a.Length0) && Witnessed(M0, D1, W1, a.Length0)
    ensures NoNegativeCycle(M0) ==> Progress(M0, D1, a.Length0, k + 1, 0, 0)
  {
    D1, W1 := D, W;
    for i := 0 to a.Length0
      invariant Holds(a, D1) && Below(D1, M0, a.Length0) && Witnessed(M0, D1, W1, a.Length0)
      invariant NoNegativeCycle(M0) ==> Progress(M0, D1, a.Length0, k, i, 0)
    {
      D1, W1 := Row(a, M0, D1, W1, k, i);
    }
    if NoNegativeCycle(M0) {
      RoundDone(M0, D1, a.Length0, k);
    }
  }

  /**
   * Lines 35-44: the triple loop never raises a cell, leaves every finite cell the cost of a
   * route of the initial matrix, and, without a negative cycle, leaves every cell the least such cost.
   */
  method Relax(a: array2<Dist>, ghost M0: Matrix) returns (ghost D: Matrix)
    requires Holds(a, M0)
    modifies a
    ensures Holds(a, D) && Below(D, M0, a.Length0) && Sound(M0, D, a.Length0)
    ensures NoNegativeCycle(M0) ==>
              forall i, j :: 0 <= i < a.Length0 && 0 <= j < a.Length0 ==> ShortestRoute(M0, i, j, D[i][j])
  {
    var n := a.Length0;
    ghost var W := Direct(n);
    StartState(M0, n);
    D := M0;
    for k := 0 to n
      invariant Holds(a, D) && Below(D, M0, n) && Witnessed(M0, D, W, n)
      invariant NoNegativeCycle(M0) ==> Progress(M0, D, n, k, 0, 0)
    {
      D, W := Round(a, M0, D, W, k);
    }
    WitnessedSound(M0, D, W, n);
    if NoNegativeCycle(M0) {
      AllShortest(M0, D, W, n);
    }
  }

  /** Line 46: the matrix as a value. */
  method Contents(a: array2<Dist>, ghost D: Matrix) returns (r: Matrix)
    requires Holds(a, D)
    ensures r == D
  {
    r := [];
    for i := 0 to a.Length0
      invariant r == D[..i]
    {
      var row := [];
      for j := 0 to a.Length1
        invariant row == D[i][..j]
      {
        row := row + [a[i, j]];
      }
      assert D[i][..a.Length1] == D[i];
      r := r + [row];
    }
    assert D[..a.Length0] == D;
  }

  /**
   * `FloydWarshall(graph)`: no cell exceeds the initial one, every finite cell is the cost of a
   * route of the initial matrix, and without a negative cycle every cell is the least such cost,
   * INF exactly when there is no route.
   */
  method Run(graph: WeightedGraph) returns (r: Matrix)
    requires InRange(graph.edges, |graph.vertices|)
    ensures Below(r, InitialMatrix(|graph.vertices|, graph.edges), |graph.vertices|)
    ensures Sound(InitialMatrix(|graph.vertices|, graph.edges), r, |graph.vertices|)
    ensures NoNegativeCycle(InitialMatrix(|graph.vertices|, graph.edges)) ==>
              forall i, j :: 0 <= i < |graph.vertices| && 0 <= j < |graph.vertices| ==>
                ShortestRoute(InitialMatrix(|graph.vertices|, graph.edges), i, j, r[i][j])
  {
    var n := |graph.vertices|;
    var distance := Initialize(n, graph.edges);
    ghost var D := Relax(distance, InitialMatrix(n, graph.edges));
    r := Contents(distance, D);
  }
}
