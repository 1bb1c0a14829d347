// Graphs from tests/test_floyd_warshall.cpp, settled by the general theorem of FloydWarshall.Run.
// Their hops all go from lower to higher ids and weigh the difference of a potential, so every
// route between two ids costs the same and no route goes back down.

module FloydWarshallSamples {
  import opened GraphTypes
  import opened FloydWarshallTheory

  /** Every finite hop (x, y) weighs `phi[y] - phi[x]`. */
  ghost predicate Potential(M: Matrix, phi: seq<int>) {
    Square(M, |phi|) && forall x: nat, y: nat :: Finite(M, x, y) ==> M[x][y].value == phi[y] - phi[x]
  }

  /** No finite hop goes to a lower id. */
  ghost predicate Upward(M: Matrix) {
    forall x: nat, y: nat :: Finite(M, x, y) ==> x <= y
  }

  /** A route without its last id is a route to the id before it. */
  lemma RouteInit(M: Matrix, p: seq<nat>, i: nat, j: nat)
    requires IsRoute(M, p, i, j) && |p| > 2
    ensures IsRoute(M, p[..|p| - 1], i, p[|p| - 2])
  {
    RouteSlice(M, p, i, j, 0, |p| - 2);
    assert p[0..|p| - 1] == p[..|p| - 1];
  }

  /** Under a potential every route costs the difference of the potential at its ends. */
  lemma {:induction false} Telescope(M: Matrix, phi: seq<int>, p: seq<nat>, i: nat, j: nat)
    requires Potential(M, phi) && IsRoute(M, p, i, j)
    ensures i < |phi| && j < |phi| && Cost(M, p) == phi[j] - phi[i]
    decreases |p|
  {
    assert Finite(M, p[|p| - 2], p[|p| - 1]);
    if |p| == 2 {
      assert p[..1] == [i];
    } else {
      RouteInit(M, p, i, j);
      Telescope(M, phi, p[..|p| - 1], i, p[|p| - 2]);
    }
  }

  /** Routes over upward hops never end below their start. */
  lemma {:induction false} UpwardRoute(M: Matrix, p: seq<nat>, i: nat, j: nat)
    requires Upward(M) && IsRoute(M, p, i, j)
    ensures i <= j
    decreases |p|
  {
    assert Finite(M, p[|p| - 2], p[|p| - 1]);
    if |p| > 2 {
      RouteInit(M, p, i, j);
      UpwardRoute(M, p[..|p| - 1], i, p[|p| - 2]);
    }
  }

  /** Under a potential no cycle has negative cost. */
  lemma PotentialNoCycle(M: Matrix, phi: seq<int>)
    requires Potential(M, phi)
    ensures NoNegativeCycle(M)
  {
    forall c, v | IsRoute(M, c, v, v) ensures Cost(M, c) >= 0 {
      Telescope(M, phi, c, v, v);
    }
  }

  /** The least cost of a route that exists is the difference of the potential. */
  lemma PotentialShortest(M: Matrix, phi: seq<int>, p: seq<nat>, i: nat, j: nat, d: Dist)
    requires Potential(M, phi) && IsRoute(M, p, i, j) && ShortestRoute(M, i, j, d)
    ensures i < |phi| && j < |phi| && d == Fin(phi[j] - phi[i])
  {
    Telescope(M, phi, p, i, j);
    var q :| IsRoute(M, q, i, j) && Cost(M, q) == d.value;
    Telescope(M, phi, q, i, j);
  }

  /** Below the diagonal of an upward matrix there is no route, so the cell is INF. */
  lemma UpwardNoRoute(M: Matrix, i: nat, j: nat, d: Dist)
    requires Upward(M) && j < i && ShortestRoute(M, i, j, d)
    ensures d == Inf
  {
    forall p ensures !IsRoute(M, p, i, j) {
      if IsRoute(M, p, i, j) {
        UpwardRoute(M, p, i, j);
      }
    }
  }

  /** The cells of a finished run on an upward matrix with a potential, given a route for each cell on or above the diagonal. */
  lemma UpwardCells(M: Matrix, phi: seq<int>, r: Matrix, i: nat, j: nat, p: seq<nat>)
    requires Potential(M, phi) && Upward(M) && i < |phi| && j < |phi| && Square(r, |phi|)
    requires i <= j ==> IsRoute(M, p, i, j)
    requires NoNegativeCycle(M) ==> forall x, y :: 0 <= x < |phi| && 0 <= y < |phi| ==> ShortestRoute(M, x, y, r[x][y])
    ensures r[i][j] == if i <= j then Fin(phi[j] - phi[i]) else Inf
  {
    PotentialNoCycle(M, phi);
    assert ShortestRoute(M, i, j, r[i][j]);
    if i <= j {
      PotentialShortest(M, phi, p, i, j, r[i][j]);
    } else {
      UpwardNoRoute(M, i, j, r[i][j]);
    }
  }

  /** tests/test_floyd_warshall.cpp:31-52 for `m` edges: i -> i + 1 of weight 1. */
  function ChainEdges(m: nat): seq<WeightedEdge> {
    seq(m, i => NewWeightedEdge(Vertex(i), Vertex(i + 1), 1))
  }

  /** Edge q of the chain runs from q to q + 1 with weight 1. */
  lemma ChainEdgeAt(m: nat, q: nat)
    requires q < m
    ensures |ChainEdges(m)| == m && Joins(ChainEdges(m)[q], q, q + 1) && ChainEdges(m)[q].weight == 1
  {
  }

  /** The only edge between two ids of the chain is the one from s to s + 1. */
  lemma ChainLast(m: nat, s: nat, t: nat)
    ensures LastWeight(ChainEdges(m), s, t) == if t == s + 1 && s < m then Some(1) else None
  {
    var ws := ChainEdges(m);
    LastWeightIsLast(ws, s, t);
    if t == s + 1 && s < m {
      ChainEdgeAt(m, s);
      var q :| 0 <= q < |ws| && Joins(ws[q], s, t) && ws[q].weight == LastWeight(ws, s, t).value;
      ChainEdgeAt(m, q);
    } else {
      forall q | 0 <= q < |ws| ensures !Joins(ws[q], s, t) {
        ChainEdgeAt(m, q);
      }
    }
  }

  /** The initial chain matrix: 1 just above the diagonal, 0 on it, INF elsewhere. */
  lemma ChainEntry(m: nat, s: nat, t: nat)
    requires s <= m && t <= m
    ensures Square(InitialMatrix(m + 1, ChainEdges(m)), m + 1)
    ensures InitialMatrix(m + 1, ChainEdges(m))[s][t] == if t == s + 1 then Fin(1) else if s == t then Fin(0) else Inf
  {
    InitialEntry(m + 1, ChainEdges(m), s, t);
    ChainLast(m, s, t);
  }

  /** The chain matrix has the potential `phi[x] = x` and is upward. */
  lemma ChainShape(m: nat)
    ensures Potential(InitialMatrix(m + 1, ChainEdges(m)), seq(m + 1, x => x))
    ensures Upward(InitialMatrix(m + 1, ChainEdges(m)))
  {
    var M, phi := InitialMatrix(m + 1, ChainEdges(m)), seq(m + 1, x => x);
    ChainEntry(m, 0, 0);
    forall x: nat, y: nat | Finite(M, x, y) ensures M[x][y].value == phi[y] - phi[x] && x <= y {
      ChainEntry(m, x, y);
    }
  }

  /** The route i, i + 1, ..., j in the chain matrix. */
  lemma ChainRoute(m: nat, i: nat, j: nat) returns (p: seq<nat>)
    requires i <= j <= m
    ensures IsRoute(InitialMatrix(m + 1, ChainEdges(m)), p, i, j)
  {
    var M := InitialMatrix(m + 1, ChainEdges(m));
    if i == j {
      p := [i, i];
      ChainEntry(m, i, i);
    } else {
      p := seq(j - i + 1, t => i + t);
      forall t | 0 < t < |p| ensures Finite(M, p[t - 1], p[t]) {
        ChainEntry(m, i + t - 1, i + t);
      }
    }
  }

  /**
   * tests/test_floyd_warshall.cpp:31-52: on the chain 0 -> 1 -> ... -> m of weight-1 edges, the
   * finished matrix holds j - i on and above the diagonal and INF below it.
   */
  lemma ChainDistances(m: nat, r: Matrix)
    requires Square(r, m + 1)
    requires NoNegativeCycle(InitialMatrix(m + 1, ChainEdges(m))) ==>
               forall x, y :: 0 <= x < m + 1 && 0 <= y < m + 1 ==> ShortestRoute(InitialMatrix(m + 1, ChainEdges(m)), x, y, r[x][y])
    ensures forall i, j :: 0 <= i <= m && 0 <= j <= m ==> r[i][j] == if i <= j then Fin(j - i) else Inf
  {
    var M, phi := InitialMatrix(m + 1, ChainEdges(m)), seq(m + 1, x => x);
    ChainShape(m);
    forall i: nat, j: nat | i <= m && j <= m ensures r[i][j] == if i <= j then Fin(j - i) else Inf {
      var p: seq<nat> := [];
      if i <= j {
        p := ChainRoute(m, i, j);
      }
      UpwardCells(M, phi, r, i, j, p);
    }
  }

  /** With no edges the initial matrix is 0 on the diagonal and INF elsewhere. */
  lemma EmptyShape(n: nat)
    ensures Potential(InitialMatrix(n, []), seq(n, x => 0))
  {
    var M := InitialMatrix(n, []);
    assert M == Base(n);
  }

  /**
   * tests/test_floyd_warshall.cpp:70-86: with no edges every cell off the diagonal stays INF and
   * the diagonal is 0.
   */
  lemma DisconnectedDistances(n: nat, r: Matrix)
    requires Square(r, n)
    requires NoNegativeCycle(InitialMatrix(n, [])) ==>
               forall x, y :: 0 <= x < n && 0 <= y < n ==> ShortestRoute(InitialMatrix(n, []), x, y, r[x][y])
    ensures forall i, j :: 0 <= i < n && 0 <= j < n ==> r[i][j] == if i == j then Fin(0) else Inf
  {
    var M, phi := InitialMatrix(n, []), seq(n, x => 0);
    EmptyShape(n);
    PotentialNoCycle(M, phi);
    forall i: nat, j: nat | i < n && j < n ensures r[i][j] == if i == j then Fin(0) else Inf {
      assert ShortestRoute(M, i, j, r[i][j]);
      if i == j {
        PotentialShortest(M, phi, [i, i], i, j, r[i][j]);
      } else {
        forall p ensures !IsRoute(M, p, i, j) {
          if IsRoute(M, p, i, j) {
            Stuck(M, p, i, j);
          }
        }
      }
    }
  }

  /** With no edges a route never leaves its start. */
  lemma {:induction false} Stuck(M: Matrix, p: seq<nat>, i: nat, j: nat)
    requires M == Base(|M|) && IsRoute(M, p, i, j)
    ensures i == j
    decreases |p|
  {
    assert Finite(M, p[|p| - 2], p[|p| - 1]);
    if |p| > 2 {
      RouteInit(M, p, i, j);
      Stuck(M, p[..|p| - 1], i, p[|p| - 2]);
    }
  }

  /** tests/test_floyd_warshall.cpp:54-68: 0 -> 1 (-1), 1 -> 2 (-2), 0 -> 2 (-3). */
  function NegativeEdges(): seq<WeightedEdge> {
    [NewWeightedEdge(Vertex(0), Vertex(1), -1), NewWeightedEdge(Vertex(1), Vertex(2), -2),
     NewWeightedEdge(Vertex(0), Vertex(2), -3)]
  }

  /** The edges between the ids of the negative sample. */
  lemma NegativeLast(s: nat, t: nat)
    ensures LastWeight(NegativeEdges(), s, t) ==
              if s == 0 && t == 1 then Some(-1) else if s == 1 && t == 2 then Some(-2)
              else if s == 0 && t == 2 then Some(-3) else None
  {
    var ws := NegativeEdges();
    var first, two := ws[..2][..1], ws[..2];
    assert first[..0] == [];
    assert LastWeight(first, s, t) == if Joins(ws[0], s, t) then Some(-1) else None;
    assert LastWeight(two, s, t) == if Joins(ws[1], s, t) then Some(-2) else LastWeight(first, s, t);
    assert LastWeight(ws, s, t) == if Joins(ws[2], s, t) then Some(-3) else LastWeight(two, s, t);
  }

  /** The initial matrix of the negative sample has the potential 0, -1, -3 and is upward. */
  lemma NegativeShape()
    ensures Potential(InitialMatrix(3, NegativeEdges()), [0, -1, -3])
    ensures Upward(InitialMatrix(3, NegativeEdges()))
    ensures forall s: nat, t: nat :: s <= t < 3 ==> Finite(InitialMatrix(3, NegativeEdges()), s, t)
  {
    var M, ws, phi := InitialMatrix(3, NegativeEdges()), NegativeEdges(), [0, -1, -3];
    InitialEntry(3, ws, 0, 0);
    forall s: nat, t: nat | s < 3 && t < 3
      ensures M[s][t] == if s == t then Fin(0) else if s < t then Fin(phi[t] - phi[s]) else Inf
    {
      InitialEntry(3, ws, s, t);
      NegativeLast(s, t);
    }
    forall s: nat, t: nat | s <= t < 3 ensures Finite(M, s, t) {
      assert M[s][t] == if s == t then Fin(0) else Fin(phi[t] - phi[s]);
    }
  }

  /** One cell of a finished run on the negative sample. */
  lemma NegativeCell(r: Matrix, i: nat, j: nat)
    requires Square(r, 3) && i < 3 && j < 3
    requires NoNegativeCycle(InitialMatrix(3, NegativeEdges())) ==>
               forall x, y :: 0 <= x < 3 && 0 <= y < 3 ==> ShortestRoute(InitialMatrix(3, NegativeEdges()), x, y, r[x][y])
    ensures r[i][j] == if i <= j then Fin([0, -1, -3][j] - [0, -1, -3][i]) else Inf
  {
    var M := InitialMatrix(3, NegativeEdges());
    NegativeShape();
    assert i <= j ==> IsRoute(M, [i, j], i, j);
    UpwardCells(M, [0, -1, -3], r, i, j, [i, j]);
  }

  /**
   * tests/test_floyd_warshall.cpp:54-68: the finished matrix holds -1 at (0, 1), -2 at (1, 2),
   * -3 at (0, 2), 0 on the diagonal and INF below it.
   */
  lemma NegativeDistances(r: Matrix)
    requires Square(r, 3)
    requires NoNegativeCycle(InitialMatrix(3, NegativeEdges())) ==>
               forall x, y :: 0 <= x < 3 && 0 <= y < 3 ==> ShortestRoute(InitialMatrix(3, NegativeEdges()), x, y, r[x][y])
    ensures r == [[Fin(0), Fin(-1), Fin(-3)], [Inf, Fin(0), Fin(-2)], [Inf, Inf, Fin(0)]]
  {
    NegativeCell(r, 0, 0);
    NegativeCell(r, 0, 1);
    NegativeCell(r, 0, 2);
    NegativeCell(r, 1, 0);
    NegativeCell(r, 1, 1);
    NegativeCell(r, 1, 2);
    NegativeCell(r, 2, 0);
    NegativeCell(r, 2, 1);
    NegativeCell(r, 2, 2);
    assert r[0] == [Fin(0), Fin(-1), Fin(-3)];
    assert r[1] == [Inf, Fin(0), Fin(-2)];
    assert r[2] == [Inf, Inf, Fin(0)];
  }
}
