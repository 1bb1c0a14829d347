// The class `BridgesAndArticulationPoints` (include/algorithms/bfs_dfs/BridgesAndArticulationPoints.h).
// It keeps a copy of the graph and the clock `time`. The two recursive searches pass their three
// maps and their record by reference; here they go in and come back out. Each method follows the
// search functions of `LowLinkSearch` with the parent lookup as corrected, so the theorems of
// `LowLinkSweep`, `LowLinkValues` and `LowLinkClosure` describe what it returns.

module BridgesArticulation {
  import opened GraphTypes
  import opened GraphBase
  import opened LowLinkSearch
  import opened LowLinkShape
  import opened LowLinkBridges
  import opened LowLinkPoints
  import opened LowLinkSweep
  import opened LowLinkValues
  import opened LowLinkClosure

  class BridgesAndArticulationPoints {
    const vertices: seq<Vertex>
    const edges: seq<Edge>
    var time: int

    /** Copies the graph and starts the clock at 0. */
    constructor (graph: Graph)
      ensures vertices == graph.vertices && edges == graph.edges && time == 0
    {
      vertices := graph.vertices;
      edges := graph.edges;
      time := 0;
    }

    /**
     * `findBridges`: a search from every undiscovered vertex in list order. The result is the
     * bridge record of the whole search from the clock's old value: exactly the tree edges
     * `u -> v` with `low[v] > discoveryTime[u]`, where the low links are exact.
     */
    method FindBridges() returns (bridges: seq<Edge>)
      modifies this
      ensures var r := Search(vertices, edges, old(time));
              bridges == r.bridges && time == r.time &&
              (forall e :: e in bridges <==> e.target.id in r.disc && IsBridge(r, e)) &&
              AllExact(edges, r) && Closed(edges, r) && (forall v :: v in vertices ==> v.id in r.disc)
    {
      var discoveryTime: map<int, int> := map[];
      var low: map<int, int> := map[];
      var parent: map<int, int> := map[];
      bridges := [];
      ghost var points: seq<int> := [];
      var i := 0;
      while i < |vertices|
        invariant 0 <= i <= |vertices|
        invariant Sweep(vertices, edges, vertices[i..], Dfs(discoveryTime, low, parent, time, bridges, points), false)
                  == Search(vertices, edges, old(time))
      {
        var vertex := vertices[i];
        assert vertices[i..] == [vertex] + vertices[i + 1..];
        if vertex.id !in discoveryTime {
          discoveryTime, low, parent, bridges, points := DfsBridges(vertex, discoveryTime, low, parent, bridges, points);
        }
        i := i + 1;
      }
      SearchRecords(vertices, edges, old(time));
      SearchLows(vertices, edges, old(time));
      SearchCloses(vertices, edges, old(time));
    }

    /**
     * `findArticulationPoints`: a search from every undiscovered vertex in list order. The result
     * is the point record of the whole search from the clock's old value: exactly the vertices
     * that pass the articulation test, where the low links are exact.
     */
    method FindArticulationPoints() returns (articulationPoints: seq<int>)
      modifies this
      ensures var r := Search(vertices, edges, old(time));
              articulationPoints == r.points && time == r.time &&
              (forall p :: p in articulationPoints <==> IsPoint(r, p)) &&
              AllExact(edges, r) && Closed(edges, r) && (forall v :: v in vertices ==> v.id in r.disc)
    {
      var discoveryTime: map<int, int> := map[];
      var low: map<int, int> := map[];
      var parent: map<int, int> := map[];
      articulationPoints := [];
      ghost var bridges: seq<Edge> := [];
      var i := 0;
      while i < |vertices|
        invariant 0 <= i <= |vertices|
        invariant Sweep(vertices, edges, vertices[i..], Dfs(discoveryTime, low, parent, time, bridges, articulationPoints), false)
                  == Search(vertices, edges, old(time))
      {
        var vertex := vertices[i];
        assert vertices[i..] == [vertex] + vertices[i + 1..];
        if vertex.id !in discoveryTime {
          discoveryTime, low, parent, bridges, articulationPoints :=
            DfsArticulationPoints(vertex, discoveryTime, low, parent, bridges, articulationPoints);
        }
        i := i + 1;
      }
      SearchRecords(vertices, edges, old(time));
      SearchLows(vertices, edges, old(time));
      SearchCloses(vertices, edges, old(time));
    }

    /**
     * `dfsBridges(u, ...)` on an undiscovered `u`. The point record of the traversal is carried
     * as ghost state so that the result is the full state `Visit` computes.
     */
    method DfsBridges(u: Vertex, discoveryTime0: map<int, int>, low0: map<int, int>, parent0: map<int, int>,
        bridges0: seq<Edge>, ghost points0: seq<int>)
      returns (discoveryTime: map<int, int>, low: map<int, int>, parent: map<int, int>,
               bridges: seq<Edge>, ghost points: seq<int>)
      requires u.id in Ids(vertices, edges) && u.id !in discoveryTime0
      modifies this
      ensures Dfs(discoveryTime, low, parent, time, bridges, points)
              == Visit(vertices, edges, u, Dfs(discoveryTime0, low0, parent0, old(time), bridges0, points0), false)
      decreases Ids(vertices, edges) - discoveryTime0.Keys, 0
    {
      ghost var s0 := Dfs(discoveryTime0, low0, parent0, time, bridges0, points0);
      time := time + 1;
      discoveryTime := discoveryTime0[u.id := time];
      low := low0[u.id := time];
      parent, bridges, points := parent0, bridges0, points0;
      var neighbours := Targets(edges, u);
      TargetIds(vertices, edges, u);
      VisitStart(vertices, edges, u, s0, false);
      ghost var children: nat := 0;
      var i := 0;
      while i < |neighbours|
        invariant 0 <= i <= |neighbours|
        invariant discoveryTime0.Keys + {u.id} <= discoveryTime.Keys && u.id in low
        invariant Scan(vertices, edges, u, neighbours[i..], Dfs(discoveryTime, low, parent, time, bridges, points), children, false)
                  == Visit(vertices, edges, u, s0, false)
      {
        NextNeighbours(neighbours, i);
        children, discoveryTime, low, parent, bridges, points :=
          NeighbourBridges(u, neighbours[i], neighbours[i + 1..], children, discoveryTime, low, parent, bridges, points);
        i := i + 1;
      }
    }

    /** One pass of the neighbour loop of `dfsBridges`: the neighbour `v` of `u`. */
    method NeighbourBridges(u: Vertex, v: Vertex, ghost rest: seq<Vertex>, ghost children0: nat,
        discoveryTime0: map<int, int>, low0: map<int, int>, parent0: map<int, int>, bridges0: seq<Edge>, ghost points0: seq<int>)
      returns (ghost children: nat, discoveryTime: map<int, int>, low: map<int, int>, parent: map<int, int>,
               bridges: seq<Edge>, ghost points: seq<int>)
      requires u.id in discoveryTime0 && u.id in low0 && v.id in Ids(vertices, edges)
      requires forall w :: w in rest ==> w.id in Ids(vertices, edges)
      modifies this
      ensures discoveryTime0.Keys <= discoveryTime.Keys && u.id in low
      ensures Scan(vertices, edges, u, [v] + rest, Dfs(discoveryTime0, low0, parent0, old(time), bridges0, points0), children0, false)
              == Scan(vertices, edges, u, rest, Dfs(discoveryTime, low, parent, time, bridges, points), children, false)
      decreases Ids(vertices, edges) - discoveryTime0.Keys, 1
    {
      HeadTail(v, rest);
      children, discoveryTime, low, parent, bridges, points := children0, discoveryTime0, low0, parent0, bridges0, points0;
      if v.id !in discoveryTime {
        children := children + 1;
        parent := parent[v.id := u.id];
        discoveryTime, low, parent, bridges, points := DfsBridges(v, discoveryTime, low, parent, bridges, points);
        ghost var returned := Returned(Dfs(discoveryTime, low, parent, time, bridges, points), u, v, children);
        low := low[u.id := Min(low[u.id], low[v.id])];
        if low[v.id] > discoveryTime[u.id] {
          bridges := bridges + [NewPlainEdge(u, v)];
        }
        ghost var mid := points;
        if u.id !in parent && children > 1 {
          points := points + [u.id];
        }
        if u.id in parent && low[v.id] >= discoveryTime[u.id] {
          points := points + [u.id];
        }
        assert points == returned.points by {
          if u.id in parent {
            assert points == mid + [] + (if low[v.id] >= discoveryTime[u.id] then [u.id] else []);
          } else {
            assert points == mid + (if children > 1 then [u.id] else []) + [];
          }
        }
      } else if !(u.id in parent && v.id == parent[u.id]) {
        low := low[u.id := Min(low[u.id], discoveryTime[v.id])];
      }
    }

    /**
     * `dfsArticulationPoints(u, ...)` on an undiscovered `u`. The bridge record of the traversal is carried
     * as ghost state so that the result is the full state `Visit` computes.
     */
    method DfsArticulationPoints(u: Vertex, discoveryTime0: map<int, int>, low0: map<int, int>, parent0: map<int, int>,
        ghost bridges0: seq<Edge>, articulationPoints0: seq<int>)
      returns (discoveryTime: map<int, int>, low: map<int, int>, parent: map<int, int>,
               ghost bridges: seq<Edge>, articulationPoints: seq<int>)
      requires u.id in Ids(vertices, edges) && u.id !in discoveryTime0
      modifies this
      ensures Dfs(discoveryTime, low, parent, time, bridges, articulationPoints)
              == Visit(vertices, edges, u, Dfs(discoveryTime0, low0, parent0, old(time), bridges0, articulationPoints0), false)
      decreases Ids(vertices, edges) - discoveryTime0.Keys, 0
    {
      ghost var s0 := Dfs(discoveryTime0, low0, parent0, time, bridges0, articulationPoints0);
      time := time + 1;
      discoveryTime := discoveryTime0[u.id := time];
      low := low0[u.id := time];
      parent, bridges, articulationPoints := parent0, bridges0, articulationPoints0;
      var neighbours := Targets(edges, u);
      TargetIds(vertices, edges, u);
      VisitStart(vertices, edges, u, s0, false);
      var children: nat := 0;
      var i := 0;
      while i < |neighbours|
        invariant 0 <= i <= |neighbours|
        invariant discoveryTime0.Keys + {u.id} <= discoveryTime.Keys && u.id in low
        invariant Scan(vertices, edges, u, neighbours[i..], Dfs(discoveryTime, low, parent, time, bridges, articulationPoints), children, false)
                  == Visit(vertices, edges, u, s0, false)
      {
        NextNeighbours(neighbours, i);
        children, discoveryTime, low, parent, bridges, articulationPoints :=
          NeighbourPoints(u, neighbours[i], neighbours[i + 1..], children, discoveryTime, low, parent, bridges, articulationPoints);
        i := i + 1;
      }
    }

    /** One pass of the neighbour loop of `dfsArticulationPoints`: the neighbour `v` of `u`. */
    method NeighbourPoints(u: Vertex, v: Vertex, ghost rest: seq<Vertex>, children0: nat,
        discoveryTime0: map<int, int>, low0: map<int, int>, parent0: map<int, int>, ghost bridges0: seq<Edge>, articulationPoints0: seq<int>)
      returns (children: nat, discoveryTime: map<int, int>, low: map<int, int>, parent: map<int, int>,
               ghost bridges: seq<Edge>, articulationPoints: seq<int>)
      requires u.id in discoveryTime0 && u.id in low0 && v.id in Ids(vertices, edges)
      requires forall w :: w in rest ==> w.id in Ids(vertices, edges)
      modifies this
      ensures discoveryTime0.Keys <= discoveryTime.Keys && u.id in low
      ensures Scan(vertices, edges, u, [v] + rest, Dfs(discoveryTime0, low0, parent0, old(time), bridges0, articulationPoints0), children0, false)
              == Scan(vertices, edges, u, rest, Dfs(discoveryTime, low, parent, time, bridges, articulationPoints), children, false)
      decreases Ids(vertices, edges) - discoveryTime0.Keys, 1
    {
      HeadTail(v, rest);
      children, discoveryTime, low, parent, bridges, articulationPoints := children0, discoveryTime0, low0, parent0, bridges0, articulationPoints0;
      if v.id !in discoveryTime {
        children := children + 1;
        parent := parent[v.id := u.id];
        discoveryTime, low, parent, bridges, articulationPoints := DfsArticulationPoints(v, discoveryTime, low, parent, bridges, articulationPoints);
        ghost var returned := Returned(Dfs(discoveryTime, low, parent, time, bridges, articulationPoints), u, v, children);
        low := low[u.id := Min(low[u.id], low[v.id])];
        if low[v.id] > discoveryTime[u.id] {
          bridges := bridges + [NewPlainEdge(u, v)];
        }
        ghost var mid := articulationPoints;
        if u.id !in parent && children > 1 {
          articulationPoints := articulationPoints + [u.id];
        }
        if u.id in parent && low[v.id] >= discoveryTime[u.id] {
          articulationPoints := articulationPoints + [u.id];
        }
        assert articulationPoints == returned.points by {
          if u.id in parent {
            assert articulationPoints == mid + [] + (if low[v.id] >= discoveryTime[u.id] then [u.id] else []);
          } else {
            assert articulationPoints == mid + (if children > 1 then [u.id] else []) + [];
          }
        }
      } else if !(u.id in parent && v.id == parent[u.id]) {
        low := low[u.id := Min(low[u.id], discoveryTime[v.id])];
      }
    }
  }
}
