// What a whole run of `findBridges` or `findArticulationPoints` records
// (include/algorithms/bfs_dfs/BridgesAndArticulationPoints.h:30-64), with the parent lookup as
// corrected: between calls on the outer loop's vertices, the bridge list holds exactly the tree
// edges that pass the bridge test, the point list exactly the vertices that pass the
// articulation test, and each discovered vertex is a listed vertex or hangs off a graph edge.

module LowLinkSweep {
  import opened GraphTypes
  import opened GraphBase
  import opened LowLinkSearch
  import opened LowLinkShape
  import opened LowLinkBridges
  import opened LowLinkPoints

  /** A discovered vertex is one of `vs` or has a parent, with a graph edge from it. */
  ghost predicate Rooted(vs: seq<Vertex>, s: Dfs) {
    forall k :: k in s.disc ==> k in s.parent || Vertex(k) in vs
  }

  /** The state of the search between two calls from the outer loop. */
  ghost predicate Recorded(vs: seq<Vertex>, es: seq<Edge>, s: Dfs) {
    Ready(es, s) && Rooted(vs, s) &&
    (forall e :: e in s.bridges <==> e.target.id in s.disc && IsBridge(s, e)) &&
    (forall p :: p in s.points <==> IsPoint(s, p))
  }

  /** A call from the outer loop does not change whether an edge into an earlier vertex is a bridge. */
  lemma RootBridge(es: seq<Edge>, s: Dfs, r: Dfs, u: Vertex, e: Edge)
    requires Ready(es, s) && u.id !in s.disc && Keeps(s, r, u) && u.id !in r.parent && NewBridges(s, r, u)
    requires forall e :: e in s.bridges <==> e.target.id in s.disc && IsBridge(s, e)
    ensures e in r.bridges <==> e.target.id in r.disc && IsBridge(r, e)
  {
    assert r.bridges == s.bridges + Added(s.bridges, r.bridges);
    if e.target.id in s.disc {
      BridgeKept(es, s, r, u, e);
    }
  }

  /** A call from the outer loop does not change whether an earlier vertex is an articulation point. */
  lemma RootPoint(es: seq<Edge>, s: Dfs, r: Dfs, u: Vertex, p: int)
    requires Ready(es, s) && u.id !in s.disc && Keeps(s, r, u) && u.id !in r.parent
    requires NewPoints(s, r, u) && (u.id in Added(s.points, r.points) <==> IsPoint(r, u.id))
    requires forall p :: p in s.points <==> IsPoint(s, p)
    ensures p in r.points <==> IsPoint(r, p)
  {
    assert r.points == s.points + Added(s.points, r.points);
    if p in s.disc {
      PointKept(es, s, r, u, p);
    }
  }

  /** The call `dfsBridges(u, ...)` or `dfsArticulationPoints(u, ...)` from the outer loop. */
  lemma RootVisit(vs: seq<Vertex>, es: seq<Edge>, u: Vertex, s: Dfs)
    requires u in vs && u.id !in s.disc && Recorded(vs, es, s)
    ensures var r := Visit(vs, es, u, s, false);
            Recorded(vs, es, r) && KeepsTimes(s, r) && u.id in r.disc
  {
    assert u.id in Ids(vs, es);
    assert u.id !in s.parent;
    var r := Visit(vs, es, u, s, false);
    VisitShape(vs, es, u, s);
    VisitBridges(vs, es, u, s);
    VisitPoints(vs, es, u, s);
    assert u.id !in r.parent;
    forall e ensures e in r.bridges <==> e.target.id in r.disc && IsBridge(r, e) {
      RootBridge(es, s, r, u, e);
    }
    forall p ensures p in r.points <==> IsPoint(r, p) {
      RootPoint(es, s, r, u, p);
    }
    forall k | k in r.disc ensures k in r.parent || Vertex(k) in vs {
      if k == u.id {
        assert Vertex(k) == u;
      }
    }
  }

  lemma {:induction false} SweepRecords(vs: seq<Vertex>, es: seq<Edge>, ws: seq<Vertex>, s: Dfs)
    requires forall w :: w in ws ==> w in vs
    requires Recorded(vs, es, s)
    ensures var r := Sweep(vs, es, ws, s, false);
            Recorded(vs, es, r) && KeepsTimes(s, r)
    decreases |ws|
  {
    if ws != [] {
      var s1 := if ws[0].id in s.disc then s else Visit(vs, es, ws[0], s, false);
      if ws[0].id !in s.disc {
        RootVisit(vs, es, ws[0], s);
      }
      SweepRecords(vs, es, ws[1..], s1);
      TimesTrans(s, s1, Sweep(vs, es, ws[1..], s1, false));
    }
  }

  /**
   * A whole search from clock `t`: the bridge list holds exactly the tree edges `u -> v` with
   * `low[v] > discoveryTime[u]`, the point list exactly the vertices that pass the articulation
   * test, every discovered vertex is listed or has a parent joined to it by a graph edge, and the
   * discovery times are distinct and are exactly the clock values after `t`.
   */
  lemma SearchRecords(vs: seq<Vertex>, es: seq<Edge>, t: int)
    ensures var r := Search(vs, es, t);
            Recorded(vs, es, r) &&
            (forall k :: k in r.parent ==> TreeEdge(es, r, k)) &&
            |r.disc.Keys| == r.time - t &&
            (forall k :: k in r.disc ==> t < r.disc[k] <= r.time) &&
            (forall j, k :: j in r.disc && k in r.disc && j != k ==> r.disc[j] != r.disc[k])
  {
    var s := Start(t);
    assert Recorded(vs, es, s);
    SweepRecords(vs, es, vs, s);
  }
}
