// The all-pairs matrix of FloydWarshall (include/algorithms/find_distance/FloydWarshall.h): how it
// is filled before the triple loop, the routes of hops through it, and the facts that carry the
// k-i-j loop. A route is a sequence of ids whose consecutive pairs are finite entries of the
// initial matrix; after round k every entry is at most the cost of any route whose interior ids
// are all below k, provided no route from an id back to itself has negative cost.

module FloydWarshallTheory {
  import opened GraphTypes

  /** `distance[i][j]`, with `numeric_limits<int>::max()` as `Inf`. */
  type Matrix = seq<seq<Dist>>

  /** A sequence of routes, one per cell. */
  type Routes = seq<seq<seq<nat>>>

  ghost predicate Square(D: Matrix, n: nat) {
    |D| == n && forall i :: 0 <= i < n ==> |D[i]| == n
  }

  ghost predicate Shaped(W: Routes, n: nat) {
    |W| == n && forall i :: 0 <= i < n ==> |W[i]| == n
  }

  /** Lines 24-29: INF everywhere except a zero diagonal. */
  function Base(n: nat): Matrix {
    seq(n, i => seq(n, j => if i == j then Fin(0) else Inf))
  }

  /** `distance[s][t] = v` for a cell inside the matrix; any other write is not modelled. */
  function Put(D: Matrix, s: int, t: int, v: Dist): Matrix {
    if 0 <= s < |D| && 0 <= t < |D[s]| then D[s := D[s][t := v]] else D
  }

  /** Lines 31-33: every edge in order writes its weight at `[source.id][target.id]`. */
  function Written(D: Matrix, ws: seq<WeightedEdge>): Matrix
    decreases |ws|
  {
    if ws == [] then D
    else
      var e := ws[|ws| - 1];
      Put(Written(D, ws[..|ws| - 1]), e.source.id, e.target.id, Fin(e.weight))
  }

  /** Lines 22-33: the matrix the triple loop starts from. */
  function InitialMatrix(n: nat, ws: seq<WeightedEdge>): Matrix {
    Written(Base(n), ws)
  }

  /** The edge runs from id `s` to id `t`. */
  predicate Joins(e: WeightedEdge, s: int, t: int) {
    e.source.id == s && e.target.id == t
  }

  /** The weight of the last edge from id `s` to id `t`, if there is one. */
  function LastWeight(ws: seq<WeightedEdge>, s: int, t: int): Option<int>
    decreases |ws|
  {
    if ws == [] then None
    else if Joins(ws[|ws| - 1], s, t) then Some(ws[|ws| - 1].weight)
    else LastWeight(ws[..|ws| - 1], s, t)
  }

  /** `LastWeight` names the weight of the last edge between the two ids, and is `None` when there is none. */
  lemma {:induction false} LastWeightIsLast(ws: seq<WeightedEdge>, s: int, t: int)
    ensures LastWeight(ws, s, t).None? <==> forall q :: 0 <= q < |ws| ==> !Joins(ws[q], s, t)
    ensures LastWeight(ws, s, t).Some? ==>
              exists q :: 0 <= q < |ws| && Joins(ws[q], s, t) && ws[q].weight == LastWeight(ws, s, t).value &&
                          forall r :: q < r < |ws| ==> !Joins(ws[r], s, t)
    decreases |ws|
  {
    if ws != [] {
      var init := ws[..|ws| - 1];
      LastWeightIsLast(init, s, t);
      if !Joins(ws[|ws| - 1], s, t) {
        if LastWeight(init, s, t).Some? {
          var q :| 0 <= q < |init| && Joins(init[q], s, t) && init[q].weight == LastWeight(init, s, t).value &&
                   forall r :: q < r < |init| ==> !Joins(init[r], s, t);
          assert ws[q] == init[q];
        }
        assert forall q :: 0 <= q < |init| ==> ws[q] == init[q];
      }
    }
  }

  /** Writing edges keeps the matrix square. */
  lemma {:induction false} WrittenSquare(D: Matrix, ws: seq<WeightedEdge>, n: nat)
    requires Square(D, n)
    ensures Square(Written(D, ws), n)
    decreases |ws|
  {
    if ws != [] {
      WrittenSquare(D, ws[..|ws| - 1], n);
    }
  }

  /** Each cell holds the weight of the last edge between its ids, or its old value when there is none. */
  lemma {:induction false} WrittenEntry(D: Matrix, ws: seq<WeightedEdge>, n: nat, s: nat, t: nat)
    requires Square(D, n) && s < n && t < n
    ensures Square(Written(D, ws), n)
    ensures Written(D, ws)[s][t] == match LastWeight(ws, s, t) case Some(w) => Fin(w) case None => D[s][t]
    decreases |ws|
  {
    WrittenSquare(D, ws, n);
    if ws != [] {
      WrittenEntry(D, ws[..|ws| - 1], n, s, t);
    }
  }

  /**
   * Lines 22-33: the initial cell (s, t) is the weight of the last edge from s to t; with no such
   * edge it is 0 on the diagonal and INF elsewhere. A self-loop thus overwrites the zero diagonal,
   * and a later parallel edge overwrites an earlier one.
   */
  lemma InitialEntry(n: nat, ws: seq<WeightedEdge>, s: nat, t: nat)
    requires s < n && t < n
    ensures Square(InitialMatrix(n, ws), n)
    ensures InitialMatrix(n, ws)[s][t] ==
              match LastWeight(ws, s, t) case Some(w) => Fin(w) case None => if s == t then Fin(0) else Inf
  {
    WrittenEntry(Base(n), ws, n, s, t);
  }

  /** Cell (x, y) of `D` is a finite hop. */
  ghost predicate Finite(D: Matrix, x: nat, y: nat) {
    x < |D| && y < |D[x]| && D[x][y].Fin?
  }

  /** The weight of hop (x, y); 0 where there is none. */
  function Hop(D: Matrix, x: nat, y: nat): int {
    if x < |D| && y < |D[x]| && D[x][y].Fin? then D[x][y].value else 0
  }

  /** `p` leads from `i` to `j` over finite hops of `D`. */
  ghost predicate IsRoute(D: Matrix, p: seq<nat>, i: nat, j: nat) {
    |p| >= 2 && p[0] == i && p[|p| - 1] == j &&
    forall t :: 0 < t < |p| ==> Finite(D, p[t - 1], p[t])
  }

  /** The sum of the hops of `p`. */
  function Cost(D: Matrix, p: seq<nat>): int
    decreases |p|
  {
    if |p| < 2 then 0 else Cost(D, p[..|p| - 1]) + Hop(D, p[|p| - 2], p[|p| - 1])
  }

  /** Every interior id of `p` is below `k`. */
  ghost predicate Through(p: seq<nat>, k: nat) {
    forall t :: 0 < t < |p| - 1 ==> p[t] < k
  }

  /** No route from an id back to itself has negative cost. */
  ghost predicate NoNegativeCycle(D: Matrix) {
    forall c, v :: IsRoute(D, c, v, v) ==> Cost(D, c) >= 0
  }

  /** `d` is the least cost of a route from `i` to `j`: INF exactly when there is none. */
  ghost predicate ShortestRoute(D: Matrix, i: nat, j: nat, d: Dist) {
    (d.Inf? <==> forall p :: !IsRoute(D, p, i, j)) &&
    (d.Fin? ==> (exists p :: IsRoute(D, p, i, j) && Cost(D, p) == d.value) &&
                (forall p :: IsRoute(D, p, i, j) ==> d.value <= Cost(D, p)))
  }

  /** Every finite cell is the cost of some route. */
  ghost predicate Sound(M0: Matrix, D: Matrix, n: nat) {
    Square(D, n) &&
    forall x, y :: 0 <= x < n && 0 <= y < n && D[x][y].Fin? ==>
      exists p :: IsRoute(M0, p, x, y) && Cost(M0, p) == D[x][y].value
  }

  /** The cost of a route is the cost up to any of its ids plus the cost from there. */
  lemma {:induction false} CostSplit(D: Matrix, p: seq<nat>, t: nat)
    requires t < |p|
    ensures Cost(D, p) == Cost(D, p[..t + 1]) + Cost(D, p[t..])
    decreases |p|
  {
    if t == |p| - 1 {
      assert p[..t + 1] == p;
    } else {
      var init := p[..|p| - 1];
      CostSplit(D, init, t);
      assert init[..t + 1] == p[..t + 1];
      var tail := p[t..];
      assert tail[..|tail| - 1] == init[t..];
      assert tail[|tail| - 2] == p[|p| - 2] && tail[|tail| - 1] == p[|p| - 1];
    }
  }

  /** `p` followed by `q` without its first id: the route through the id where they meet. */
  function Join(p: seq<nat>, q: seq<nat>): seq<nat> {
    if q == [] then p else p + q[1..]
  }

  /** Two routes that meet at `k` join to a route whose cost is their sum. */
  lemma RouteJoin(D: Matrix, p: seq<nat>, q: seq<nat>, i: nat, k: nat, j: nat)
    requires IsRoute(D, p, i, k) && IsRoute(D, q, k, j)
    ensures IsRoute(D, Join(p, q), i, j) && Cost(D, Join(p, q)) == Cost(D, p) + Cost(D, q)
  {
    var r := Join(p, q);
    assert r == p + q[1..];
    forall t | 0 < t < |r| ensures Finite(D, r[t - 1], r[t]) {
      if t >= |p| {
        assert r[t - 1] == q[t - |p|] && r[t] == q[t - |p| + 1];
      } else {
        assert r[t - 1] == p[t - 1] && r[t] == p[t];
      }
    }
    CostSplit(D, r, |p| - 1);
    assert r[..|p|] == p;
    assert r[|p| - 1..] == q;
  }

  /** A stretch of a route is a route between its ends. */
  lemma RouteSlice(D: Matrix, p: seq<nat>, i: nat, j: nat, s: nat, t: nat)
    requires IsRoute(D, p, i, j) && s < t < |p|
    ensures IsRoute(D, p[s..t + 1], p[s], p[t])
  {
    var r := p[s..t + 1];
    forall u | 0 < u < |r| ensures Finite(D, r[u - 1], r[u]) {
      assert r[u - 1] == p[s + u - 1] && r[u] == p[s + u];
    }
  }

  /** The first index from `s` on where `p` is at `k`, given that it is at `t`. */
  ghost function FirstVisit(p: seq<nat>, k: nat, s: nat, t: nat): (f: nat)
    requires s <= t < |p| && p[t] == k
    ensures s <= f <= t && p[f] == k && forall q :: s <= q < f ==> p[q] != k
    decreases t - s
  {
    if p[s] == k then s else FirstVisit(p, k, s + 1, t)
  }

  /** The last index up to `t` where `p` is at `k`, given that it is at `s`. */
  ghost function LastVisit(p: seq<nat>, k: nat, s: nat, t: nat): (l: nat)
    requires s <= t < |p| && p[s] == k
    ensures s <= l <= t && p[l] == k && forall q :: l < q <= t ==> p[q] != k
    decreases t - s
  {
    if p[t] == k then t else LastVisit(p, k, s, t - 1)
  }

  /** The cost of a route is that of its three stretches cut at `f` and `l`. */
  lemma CostAround(D: Matrix, p: seq<nat>, f: nat, l: nat)
    requires f <= l < |p|
    ensures Cost(D, p) == Cost(D, p[..f + 1]) + Cost(D, p[f..l + 1]) + Cost(D, p[l..])
  {
    CostSplit(D, p, f);
    var rest := p[f..];
    CostSplit(D, rest, l - f);
    assert rest[..l - f + 1] == p[f..l + 1];
    assert rest[l - f..] == p[l..];
  }

  /** The stretch of a route up to its first visit of `k` does not visit `k` inside. */
  lemma HeadBelow(D: Matrix, p: seq<nat>, i: nat, j: nat, k: nat, f: nat)
    requires IsRoute(D, p, i, j) && Through(p, k + 1) && 0 < f < |p| - 1 && p[f] == k
    requires forall q :: 1 <= q < f ==> p[q] != k
    ensures IsRoute(D, p[..f + 1], i, k) && Through(p[..f + 1], k)
  {
    RouteSlice(D, p, i, j, 0, f);
    assert p[0..f + 1] == p[..f + 1];
    var p1 := p[..f + 1];
    forall q | 0 < q < |p1| - 1 ensures p1[q] < k {
      assert p1[q] == p[q];
    }
  }

  /** The stretch of a route from its last visit of `k` does not visit `k` inside. */
  lemma TailBelow(D: Matrix, p: seq<nat>, i: nat, j: nat, k: nat, l: nat)
    requires IsRoute(D, p, i, j) && Through(p, k + 1) && 0 < l < |p| - 1 && p[l] == k
    requires forall q :: l < q <= |p| - 2 ==> p[q] != k
    ensures IsRoute(D, p[l..], k, j) && Through(p[l..], k)
  {
    RouteSlice(D, p, i, j, l, |p| - 1);
    assert p[l..|p| - 1 + 1] == p[l..];
    var p2 := p[l..];
    forall q | 0 < q < |p2| - 1 ensures p2[q] < k {
      assert p2[q] == p[l + q];
    }
  }

  /**
   * A route through ids below k + 1 that is not through ids below k visits k: cutting it at the
   * first and the last visit gives two routes through ids below k that cost no more in total,
   * because the loop between the visits costs at least 0.
   */
  lemma SplitAtTop(D: Matrix, p: seq<nat>, i: nat, j: nat, k: nat) returns (p1: seq<nat>, p2: seq<nat>)
    requires NoNegativeCycle(D) && IsRoute(D, p, i, j) && Through(p, k + 1) && !Through(p, k)
    ensures IsRoute(D, p1, i, k) && Through(p1, k) && IsRoute(D, p2, k, j) && Through(p2, k)
    ensures Cost(D, p1) + Cost(D, p2) <= Cost(D, p)
  {
    var t :| 0 < t < |p| - 1 && p[t] >= k;
    var f := FirstVisit(p, k, 1, t);
    var l := LastVisit(p, k, t, |p| - 2);
    HeadBelow(D, p, i, j, k, f);
    TailBelow(D, p, i, j, k, l);
    p1, p2 := p[..f + 1], p[l..];
    CostAround(D, p, f, l);
    if f < l {
      RouteSlice(D, p, i, j, f, l);
      assert Cost(D, p[f..l + 1]) >= 0;
    } else {
      assert |p[f..l + 1]| == 1;
    }
  }

  /** Every cell is at most the initial one. */
  ghost predicate Below(D: Matrix, M0: Matrix, n: nat) {
    Square(D, n) && Square(M0, n) &&
    forall x, y :: 0 <= x < n && 0 <= y < n ==> AtMost(D[x][y], M0[x][y])
  }

  /** Every finite cell is the cost of its witness route in `M0`. */
  ghost predicate Witnessed(M0: Matrix, D: Matrix, W: Routes, n: nat) {
    Square(D, n) && Shaped(W, n) &&
    forall x, y {:trigger W[x][y]} :: 0 <= x < n && 0 <= y < n && D[x][y].Fin? ==>
      IsRoute(M0, W[x][y], x, y) && Cost(M0, W[x][y]) == D[x][y].value
  }

  /** Cell (x, y) is at most the cost of every route from x to y through ids below k. */
  ghost predicate Bounded(M0: Matrix, D: Matrix, x: nat, y: nat, k: nat) {
    x < |D| && y < |D[x]| &&
    forall p :: IsRoute(M0, p, x, y) && Through(p, k) ==> D[x][y].Fin? && D[x][y].value <= Cost(M0, p)
  }

  /** Round k has reached cell (i, j): every cell is bounded for k, those before (i, j) for k + 1. */
  ghost predicate Progress(M0: Matrix, D: Matrix, n: nat, k: nat, i: nat, j: nat) {
    (forall x, y :: 0 <= x < n && 0 <= y < n ==> Bounded(M0, D, x, y, k)) &&
    (forall x, y :: 0 <= x < n && 0 <= y < n && (x < i || (x == i && y < j)) ==> Settled(M0, D, x, y, k))
  }

  /** Cell (x, y) is bounded for k + 1: round k has passed it. */
  ghost predicate Settled(M0: Matrix, D: Matrix, x: nat, y: nat, k: nat) {
    Bounded(M0, D, x, y, k + 1)
  }

  /** The test of lines 38-39: both halves are finite and their sum is shorter. */
  ghost predicate Shortcut(D: Matrix, i: nat, j: nat, k: nat)
    requires i < |D| && j < |D[i]|
  {
    Finite(D, i, k) && Finite(D, k, j) && Less(Fin(D[i][k].value + D[k][j].value), D[i][j])
  }

  /** Cell (i, j) after lines 38-41. */
  ghost function Improved(D: Matrix, i: nat, j: nat, k: nat): Dist
    requires i < |D| && j < |D[i]|
  {
    if Shortcut(D, i, j, k) then Fin(D[i][k].value + D[k][j].value) else D[i][j]
  }

  /** The matrix after lines 38-41. */
  ghost function Update(D: Matrix, i: nat, j: nat, k: nat): Matrix
    requires i < |D| && j < |D[i]|
  {
    D[i := D[i][j := Improved(D, i, j, k)]]
  }

  /** The witnesses after lines 38-41: a shortcut joins the witnesses of (i, k) and (k, j). */
  ghost function Stretch(D: Matrix, W: Routes, n: nat, i: nat, j: nat, k: nat): Routes
    requires Square(D, n) && Shaped(W, n) && i < n && j < n && k < n
  {
    if Shortcut(D, i, j, k) then W[i := W[i][j := Join(W[i][k], W[k][j])]] else W
  }

  /** Writing a finite cell together with a witness route of that cost keeps the matrix witnessed. */
  lemma WitnessedWrite(M0: Matrix, D: Matrix, W: Routes, n: nat, i: nat, j: nat, v: int, p: seq<nat>)
    requires Witnessed(M0, D, W, n) && i < n && j < n && IsRoute(M0, p, i, j) && Cost(M0, p) == v
    ensures Witnessed(M0, D[i := D[i][j := Fin(v)]], W[i := W[i][j := p]], n)
  {
    var D1, W1 := D[i := D[i][j := Fin(v)]], W[i := W[i][j := p]];
    assert Square(D1, n) && Shaped(W1, n);
    forall x: nat, y: nat | 0 <= x < n && 0 <= y < n && D1[x][y].Fin?
      ensures IsRoute(M0, W1[x][y], x, y) && Cost(M0, W1[x][y]) == D1[x][y].value
    {
      if x != i || y != j {
        assert D1[x][y] == D[x][y] && W1[x][y] == W[x][y];
      }
    }
  }

  /** Lines 38-41 keep every finite cell witnessed. */
  lemma CellWitnessed(M0: Matrix, D: Matrix, W: Routes, n: nat, i: nat, j: nat, k: nat)
    requires Witnessed(M0, D, W, n) && i < n && j < n && k < n
    ensures Witnessed(M0, Update(D, i, j, k), Stretch(D, W, n, i, j, k), n)
  {
    if Shortcut(D, i, j, k) {
      assert IsRoute(M0, W[i][k], i, k) && IsRoute(M0, W[k][j], k, j);
      RouteJoin(M0, W[i][k], W[k][j], i, k, j);
      var v, p := D[i][k].value + D[k][j].value, Join(W[i][k], W[k][j]);
      WitnessedWrite(M0, D, W, n, i, j, v, p);
      assert Update(D, i, j, k) == D[i := D[i][j := Fin(v)]];
      assert Stretch(D, W, n, i, j, k) == W[i := W[i][j := p]];
    } else {
      assert D[i][j := D[i][j]] == D[i];
      assert Update(D, i, j, k) == D;
    }
  }

  /** Lines 38-41 never increase a cell. */
  lemma CellBelow(D: Matrix, M0: Matrix, n: nat, i: nat, j: nat, k: nat)
    requires Below(D, M0, n) && i < n && j < n && k < n
    ensures Below(Update(D, i, j, k), M0, n)
  {
    var D1 := Update(D, i, j, k);
    forall x: nat, y: nat | 0 <= x < n && 0 <= y < n ensures AtMost(D1[x][y], M0[x][y]) {
      if x != i || y != j {
        assert D1[x][y] == D[x][y];
      }
    }
  }

  /** The updated cell is bounded for k and for k + 1. */
  lemma CellBounded(M0: Matrix, D: Matrix, n: nat, i: nat, j: nat, k: nat)
    requires Square(D, n) && i < n && j < n && k < n && NoNegativeCycle(M0)
    requires Bounded(M0, D, i, j, k) && Bounded(M0, D, i, k, k) && Bounded(M0, D, k, j, k)
    ensures Bounded(M0, Update(D, i, j, k), i, j, k + 1)
  {
    var D1 := Update(D, i, j, k);
    assert D1[i][j] == Improved(D, i, j, k);
    forall p | IsRoute(M0, p, i, j) && Through(p, k + 1) ensures D1[i][j].Fin? && D1[i][j].value <= Cost(M0, p) {
      if !Through(p, k) {
        var p1, p2 := SplitAtTop(M0, p, i, j, k);
      }
    }
  }

  /** Lines 38-41 at cell (i, j) of round k advance the round to the next cell. */
  lemma CellProgress(M0: Matrix, D: Matrix, n: nat, i: nat, j: nat, k: nat)
    requires Square(D, n) && i < n && j < n && k < n && NoNegativeCycle(M0) && Progress(M0, D, n, k, i, j)
    ensures Progress(M0, Update(D, i, j, k), n, k, i, j + 1)
  {
    var D1 := Update(D, i, j, k);
    CellBounded(M0, D, n, i, j, k);
    forall x: nat, y: nat | 0 <= x < n && 0 <= y < n
      ensures Bounded(M0, D1, x, y, k) && ((x < i || (x == i && y < j + 1)) ==> Settled(M0, D1, x, y, k))
    {
      if x == i && y == j {
        forall p | IsRoute(M0, p, i, j) && Through(p, k) ensures D1[i][j].Fin? && D1[i][j].value <= Cost(M0, p) {
          assert Through(p, k + 1);
        }
      } else {
        assert D1[x][y] == D[x][y];
        assert Bounded(M0, D, x, y, k);
        if x < i || (x == i && y < j) {
          assert Settled(M0, D, x, y, k);
        }
      }
    }
  }

  /** A row finished moves on to the next row. */
  lemma RowDone(M0: Matrix, D: Matrix, n: nat, k: nat, i: nat)
    requires Progress(M0, D, n, k, i, n)
    ensures Progress(M0, D, n, k, i + 1, 0)
  {
  }

  /** A round finished moves on to the next round. */
  lemma RoundDone(M0: Matrix, D: Matrix, n: nat, k: nat)
    requires Progress(M0, D, n, k, n, 0)
    ensures Progress(M0, D, n, k + 1, 0, 0)
  {
    var next := k + 1;
    forall x: nat, y: nat | 0 <= x < n && 0 <= y < n ensures Bounded(M0, D, x, y, next) {
      assert Settled(M0, D, x, y, k);
    }
  }

  /** The direct hop of every cell. */
  ghost function Direct(n: nat): (W: Routes)
    ensures Shaped(W, n)
  {
    seq(n, x => seq(n, y => [x, y]))
  }

  /** Before round 0 every finite cell is its direct hop and bounds every route with no interior id. */
  lemma StartState(M0: Matrix, n: nat)
    requires Square(M0, n)
    ensures Witnessed(M0, M0, Direct(n), n) && Below(M0, M0, n) && Progress(M0, M0, n, 0, 0, 0)
  {
    var W := Direct(n);
    forall x: nat, y: nat | 0 <= x < n && 0 <= y < n && M0[x][y].Fin?
      ensures IsRoute(M0, W[x][y], x, y) && Cost(M0, W[x][y]) == M0[x][y].value
    {
      var p := W[x][y];
      assert p == [x, y];
      assert p[..1] == [x];
    }
    forall x: nat, y: nat | 0 <= x < n && 0 <= y < n ensures Bounded(M0, M0, x, y, 0) {
      forall p | IsRoute(M0, p, x, y) && Through(p, 0) ensures M0[x][y].Fin? && M0[x][y].value <= Cost(M0, p) {
        assert p[1] >= 0;
        assert p == [x, y];
        assert p[..1] == [x];
        assert Finite(M0, p[0], p[1]);
      }
    }
  }

  /** Witnessed cells are sound. */
  lemma WitnessedSound(M0: Matrix, D: Matrix, W: Routes, n: nat)
    requires Witnessed(M0, D, W, n)
    ensures Sound(M0, D, n)
  {
    forall x, y | 0 <= x < n && 0 <= y < n && D[x][y].Fin?
      ensures exists p :: IsRoute(M0, p, x, y) && Cost(M0, p) == D[x][y].value
    {
      assert IsRoute(M0, W[x][y], x, y);
    }
  }

  /** A route in a square matrix only visits ids of the matrix. */
  lemma RouteInside(M0: Matrix, n: nat, p: seq<nat>, i: nat, j: nat)
    requires Square(M0, n) && IsRoute(M0, p, i, j)
    ensures Through(p, n)
  {
    forall t | 0 < t < |p| - 1 ensures p[t] < n {
      assert Finite(M0, p[t], p[t + 1]);
    }
  }

  /** After round n - 1 every cell is the least cost of a route in the initial matrix. */
  lemma AllShortest(M0: Matrix, D: Matrix, W: Routes, n: nat)
    requires Square(M0, n) && Witnessed(M0, D, W, n) && Progress(M0, D, n, n, 0, 0)
    ensures forall i, j :: 0 <= i < n && 0 <= j < n ==> ShortestRoute(M0, i, j, D[i][j])
  {
    forall i, j | 0 <= i < n && 0 <= j < n ensures ShortestRoute(M0, i, j, D[i][j]) {
      assert Bounded(M0, D, i, j, n);
      forall p | IsRoute(M0, p, i, j) ensures D[i][j].Fin? && D[i][j].value <= Cost(M0, p) {
        RouteInside(M0, n, p, i, j);
      }
      if D[i][j].Fin? {
        assert IsRoute(M0, W[i][j], i, j);
      }
    }
  }
}
