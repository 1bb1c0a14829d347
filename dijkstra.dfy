// `Dijkstra(graph, start)` (include/algorithms/find_distance/Dijkstra.h): single-source shortest
// distances with a priority queue ordered by distance alone and lazy deletion of stale entries.
// The distance vector is indexed by vertex id, so the ids must be 0 .. |V| - 1; the result is
// INF (`numeric_limits<int>::max()`) for every vertex no walk reaches.

module Dijkstra {
  import opened GraphTypes
  import opened GraphBase
  import opened WeightedGraphs
  import opened ShortestWalks
  import opened DijkstraQueue

  /** The weight `getEdgeWeight(u, v)` returns: that of the first (u, v) edge. */
  ghost function FirstWeight(ws: seq<WeightedEdge>, u: Vertex, v: Vertex): int {
    match EdgeWeight(ws, u, v)
    case Ok(w) => w
    case Err(_) => 0
  }

  /** With no duplicate edges, the first (s, t) edge is the only one. */
  lemma FirstIsOnly(ws: seq<WeightedEdge>, e: WeightedEdge)
    requires DistinctEdges(Plain(ws)) && e in ws
    ensures EdgeWeight(ws, e.source, e.target) == Ok(e.weight)
  {
    var j :| 0 <= j < |ws| && ws[j] == e;
    assert Plain(ws)[j] == AsEdge(e);
    assert IsEdge(Plain(ws)[j], e.source, e.target);
    var i := FindEdge(ws, e.source, e.target).value;
    assert Plain(ws)[i] == AsEdge(ws[i]);
    assert !(j < i);
    assert i == j;
  }

  /** The ids `0 .. n - 1`. */
  ghost function Ids(n: nat): (r: set<int>)
    ensures forall i :: i in r <==> 0 <= i < n
  {
    if n == 0 then {} else Ids(n - 1) + {n - 1}
  }

  lemma ListedInRange(vs: seq<Vertex>, ws: seq<WeightedEdge>)
    requires EndpointsListed(vs, Plain(ws)) && forall v :: v in vs ==> 0 <= v.id < |vs|
    ensures InRange(ws, |vs|)
  {
    forall e | e in ws ensures 0 <= e.source.id < |vs| && 0 <= e.target.id < |vs| {
      var j :| 0 <= j < |ws| && ws[j] == e;
      assert Plain(ws)[j].source in vs && Plain(ws)[j].target in vs;
    }
  }

  /** `a` is nowhere above `b`. */
  ghost predicate Below(a: seq<Dist>, b: seq<Dist>) {
    |a| == |b| && forall i :: 0 <= i < |b| ==> AtMost(a[i], b[i])
  }

  lemma BelowTrans(a: seq<Dist>, b: seq<Dist>, c: seq<Dist>)
    requires Below(a, b) && Below(b, c)
    ensures Below(a, c)
  {
  }

  /** Each of the first `k` of `vs` is within the first edge weight from `u` of `m`. */
  ghost predicate Near(ws: seq<WeightedEdge>, d: seq<Dist>, u: Vertex, m: int, vs: seq<Vertex>, k: nat)
    requires k <= |vs|
  {
    forall j :: 0 <= j < k ==> 0 <= vs[j].id < |d| && AtMost(d[vs[j].id], Fin(m + FirstWeight(ws, u, vs[j])))
  }

  /** Lowering distances keeps the visited neighbours near, and adds the one just visited. */
  lemma NearKept(ws: seq<WeightedEdge>, d: seq<Dist>, before: seq<Dist>, u: Vertex, m: int, vs: seq<Vertex>, k: nat)
    requires k < |vs| && Below(d, before) && Near(ws, before, u, m, vs, k)
    requires 0 <= vs[k].id < |d| && AtMost(d[vs[k].id], Fin(m + FirstWeight(ws, u, vs[k])))
    ensures Near(ws, d, u, m, vs, k + 1)
  {
  }

  /** Once every neighbour of `u` is within its first edge's weight of `m`, the edges out of `u` are relaxed too. */
  lemma ScanComplete(ws: seq<WeightedEdge>, d: seq<Dist>, done: set<int>, m: int, u: Vertex, neighbours: seq<Vertex>)
    requires DistinctEdges(Plain(ws)) && neighbours == Targets(Plain(ws), u)
    requires 0 <= u.id < |d| && d[u.id] == Fin(m) && RelaxedFrom(ws, d, done)
    requires Near(ws, d, u, m, neighbours, |neighbours|)
    ensures RelaxedFrom(ws, d, done + {u.id})
  {
    forall e | e in ws && e.source.id in done + {u.id} && 0 <= e.source.id < |d| && 0 <= e.target.id < |d|
      ensures d[e.source.id].Fin? && AtMost(d[e.target.id], Fin(d[e.source.id].value + e.weight))
    {
      if e.source.id == u.id {
        VertexOfId(e.source);
        VertexOfId(u);
        TargetsMembers(Plain(ws), u, e.target);
        var i :| 0 <= i < |ws| && ws[i] == e;
        assert IsEdge(Plain(ws)[i], u, e.target);
        var k :| 0 <= k < |neighbours| && neighbours[k] == e.target;
        FirstIsOnly(ws, e);
      }
    }
  }

  /**
   * Lines 47-49: lowering the neighbour `v` of the settled `u`, reached by the edge `f`, to
   * `y = d[u] + f.weight` and pushing it keeps the search state, with `paths[u] + [f]` as the new
   * witness walk.
   */
  lemma LowerNeighbour(ws: seq<WeightedEdge>, start: Vertex, d: seq<Dist>, q: multiset<Entry>, done: set<int>,
                       m: int, w: seq<seq<WeightedEdge>>, u: Vertex, f: WeightedEdge, v: Vertex, y: int)
    requires 0 <= u.id < |d| && d[u.id] == Fin(m)
    requires f in ws && f.source == u && f.target == v && f.weight >= 0 && y == d[u.id].value + f.weight
    requires 0 <= v.id < |d| && Less(Fin(y), d[v.id])
    requires Queued(d, q, done + {u.id}, m) && RelaxedFrom(ws, d, done)
    requires Walked(ws, start, d, w) && StartAtMostZero(start, d)
    ensures Below(d[v.id := Fin(y)], d) && d[v.id := Fin(y)][u.id] == Fin(m)
    ensures Queued(d[v.id := Fin(y)], q + multiset{Entry(y, v)}, done + {u.id}, m)
    ensures RelaxedFrom(ws, d[v.id := Fin(y)], done)
    ensures Walked(ws, start, d[v.id := Fin(y)], w[v.id := w[u.id] + [f]])
    ensures StartAtMostZero(start, d[v.id := Fin(y)])
  {
    Lowering(d, q, done + {u.id}, m, v, y);
    LoweringKeepsRelaxed(ws, d, done, v.id, y);
    LoweringKeepsWalked(ws, start, d, w, u, f, v, y);
  }

  /**
   * Lines 46-50 for one neighbour `v` of the vertex `u` just settled at distance `m`: lower `v`
   * to `m + getEdgeWeight(u, v)` and push it when that is shorter. Distances only fall, `v` ends
   * within that weight of `m`, and the search state is kept.
   */
  method Visit(graph: WeightedGraph, u: Vertex, v: Vertex, d: seq<Dist>, q: multiset<Entry>,
               ghost start: Vertex, ghost done: set<int>, ghost m: int, ghost w: seq<seq<WeightedEdge>>)
    returns (distances: seq<Dist>, pq: multiset<Entry>, ghost paths: seq<seq<WeightedEdge>>)
    requires InRange(graph.edges, |d|) && forall e :: e in graph.edges ==> e.weight >= 0
    requires v in Targets(Plain(graph.edges), u)
    requires 0 <= u.id < |d| && d[u.id] == Fin(m)
    requires Queued(d, q, done + {u.id}, m) && RelaxedFrom(graph.edges, d, done)
    requires Walked(graph.edges, start, d, w) && StartAtMostZero(start, d)
    ensures Below(distances, d) && distances[u.id] == Fin(m)
    ensures 0 <= v.id < |d| && AtMost(distances[v.id], Fin(m + FirstWeight(graph.edges, u, v)))
    ensures Queued(distances, pq, done + {u.id}, m) && RelaxedFrom(graph.edges, distances, done)
    ensures Walked(graph.edges, start, distances, paths) && StartAtMostZero(start, distances)
  {
    ghost var ws := graph.edges;
    TargetsMembers(Plain(ws), u, v);
    var lookup := graph.GetEdgeWeight(u, v);
    ghost var f :| f in ws && f.source == u && f.target == v && f.weight == lookup.value by {
      var i :| 0 <= i < |ws| && IsEdge(AsEdge(ws[i]), u, v) && ws[i].weight == lookup.value &&
               forall j :: 0 <= j < i ==> !IsEdge(AsEdge(ws[j]), u, v);
      assert ws[i] in ws;
    }
    var weight := lookup.value;
    assert weight == FirstWeight(ws, u, v);
    distances, pq, paths := d, q, w;
    var y := d[u.id].value + weight;
    if Less(Fin(y), d[v.id]) {
      LowerNeighbour(ws, start, d, q, done, m, w, u, f, v, y);
      paths := w[v.id := w[u.id] + [f]];
      distances := d[v.id := Fin(y)];
      pq := q + multiset{Entry(y, v)};
    }
  }

  /**
   * Lines 45-51 for the vertex `u` just popped at its own distance `m`: every neighbour is
   * visited. Distances only fall, and afterwards every edge out of `u` is relaxed.
   */
  method ScanNeighbours(graph: WeightedGraph, u: Vertex, d: seq<Dist>, q: multiset<Entry>,
                        ghost start: Vertex, ghost done: set<int>, ghost m: int, ghost w: seq<seq<WeightedEdge>>)
    returns (distances: seq<Dist>, pq: multiset<Entry>, ghost paths: seq<seq<WeightedEdge>>)
    requires graph.Valid() && InRange(graph.edges, |d|) && forall e :: e in graph.edges ==> e.weight >= 0
    requires 0 <= u.id < |d| && d[u.id] == Fin(m)
    requires Queued(d, q, done + {u.id}, m) && RelaxedFrom(graph.edges, d, done)
    requires Walked(graph.edges, start, d, w) && StartAtMostZero(start, d)
    ensures Below(distances, d)
    ensures Queued(distances, pq, done + {u.id}, m) && RelaxedFrom(graph.edges, distances, done + {u.id})
    ensures Walked(graph.edges, start, distances, paths) && StartAtMostZero(start, distances)
  {
    ghost var ws := graph.edges;
    distances, pq, paths := d, q, w;
    var neighbours := graph.GetNeighbors(u);
    for k := 0 to |neighbours|
      invariant Below(distances, d) && distances[u.id] == Fin(m)
      invariant Queued(distances, pq, done + {u.id}, m) && RelaxedFrom(ws, distances, done)
      invariant Walked(ws, start, distances, paths) && StartAtMostZero(start, distances)
      invariant Near(ws, distances, u, m, neighbours, k)
    {
      ghost var before := distances;
      distances, pq, paths := Visit(graph, u, neighbours[k], distances, pq, start, done, m, paths);
      BelowTrans(distances, before, d);
      NearKept(ws, distances, before, u, m, neighbours, k);
    }
    ScanComplete(ws, distances, done, m, u, neighbours);
  }

  /** Lines 39-40: `pq.top()` then `pq.pop()`, an entry of least distance. */
  method Pop(pq: multiset<Entry>) returns (top: Entry, rest: multiset<Entry>)
    requires |pq| > 0
    ensures IsTop(pq, top) && rest == pq - multiset{top}
  {
    TopExists(pq);
    top :| IsTop(pq, top);
    rest := pq - multiset{top};
  }

  /**
   * Lines 39-51, one round of the loop: pop a least entry; a stale one is dropped, a fresh one
   * settles its vertex and relaxes its edges. The discipline holds again, and either a vertex
   * was settled or the queue shrank.
   */
  method Settle(graph: WeightedGraph, ghost start: Vertex, d: seq<Dist>, q: multiset<Entry>,
                ghost done: set<int>, ghost m: int, ghost w: seq<seq<WeightedEdge>>)
    returns (distances: seq<Dist>, pq: multiset<Entry>, ghost done1: set<int>, ghost m1: int,
             ghost paths: seq<seq<WeightedEdge>>)
    requires graph.Valid() && InRange(graph.edges, |d|) && forall e :: e in graph.edges ==> e.weight >= 0
    requires |q| > 0 && Queued(d, q, done, m) && RelaxedFrom(graph.edges, d, done)
    requires Walked(graph.edges, start, d, w) && StartAtMostZero(start, d)
    ensures |distances| == |d|
    ensures Queued(distances, pq, done1, m1) && RelaxedFrom(graph.edges, distances, done1)
    ensures Walked(graph.edges, start, distances, paths) && StartAtMostZero(start, distances)
    ensures (done1 == done && |pq| < |q|) || Ids(|d|) - done1 < Ids(|d|) - done
  {
    var top;
    top, pq := Pop(q);
    var u, distU := top.vertex, top.dist;
    if Less(d[u.id], Fin(distU)) {
      PopStale(d, q, done, m, top);
      distances, done1, m1, paths := d, done, distU, w;
      return;
    }
    PopFresh(d, q, done, m, top);
    m1 := distU;
    distances, pq, paths := ScanNeighbours(graph, u, d, pq, start, done, m1, w);
    done1 := done + {u.id};
    assert u.id in Ids(|d|) - done;
  }

  /**
   * `Dijkstra(graph, start)` on a graph whose ids are `0 .. |V| - 1` and whose weights are not
   * negative: entry `i` of the result is the shortest distance from `start` to vertex `i`, INF
   * exactly when no walk reaches it.
   */
  method Run(graph: WeightedGraph, start: Vertex) returns (distances: seq<Dist>)
    requires graph.Valid() && forall v :: v in graph.vertices ==> 0 <= v.id < |graph.vertices|
    requires 0 <= start.id < |graph.vertices|
    requires forall e :: e in graph.edges ==> e.weight >= 0
    ensures |distances| == |graph.vertices|
    ensures forall i :: 0 <= i < |distances| ==> ShortestIs(graph.edges, start, Vertex(i), distances[i])
  {
    var n := |graph.vertices|;
    ghost var ws := graph.edges;
    ListedInRange(graph.vertices, ws);
    distances := seq(n, i => Inf);
    distances := distances[start.id := Fin(0)];
    var pq := multiset{Entry(0, start)};
    ghost var done: set<int> := {};
    ghost var m := 0;
    ghost var paths: seq<seq<WeightedEdge>> := seq(n, i => []);
    StartState(ws, n, start);
    while |pq| > 0
      invariant |distances| == n
      invariant Queued(distances, pq, done, m) && RelaxedFrom(ws, distances, done)
      invariant Walked(ws, start, distances, paths) && StartAtMostZero(start, distances)
      decreases Ids(n) - done, |pq|
    {
      distances, pq, done, m, paths := Settle(graph, start, distances, pq, done, m, paths);
    }
    EmptyQueueShortest(ws, start, distances, paths, done, m);
  }
}
