// The bridges the low-link search records (include/algorithms/bfs_dfs/BridgesAndArticulationPoints.h:92-97).

module LowLinkBridges {
  import opened GraphTypes
  import opened GraphBase
  import opened LowLinkSearch
  import opened LowLinkShape

  /**
   * `e` is the bridge the search records for the tree edge into `e.target`: the edge from the
   * recorded parent, as `EdgeType(u, v)` builds it, whose target's low link exceeds the parent's
   * discovery time.
   */
  ghost predicate IsBridge(r: Dfs, e: Edge) {
    e == NewPlainEdge(e.source, e.target) && e.target.id in r.parent && r.parent[e.target.id] == e.source.id &&
    e.source.id in r.disc && e.target.id in r.low && r.low[e.target.id] > r.disc[e.source.id]
  }

  /** The bridges recorded from `s` to `r` are those of the vertices discovered in between, except `u`. */
  ghost predicate NewBridges(s: Dfs, r: Dfs, u: Vertex) {
    forall e :: e in Added(s.bridges, r.bridges) <==>
      e.target.id in r.disc && e.target.id !in s.disc && e.target.id != u.id && IsBridge(r, e)
  }

  /** A step on behalf of `u` does not change whether an edge into an earlier vertex other than `u` is a bridge. */
  lemma BridgeKept(es: seq<Edge>, s: Dfs, r: Dfs, u: Vertex, e: Edge)
    requires Ready(es, s) && Keeps(s, r, u) && e.target.id in s.disc && e.target.id != u.id
    ensures IsBridge(s, e) <==> IsBridge(r, e)
  {
    if e.target.id in s.parent {
      assert TreeEdge(es, s, e.target.id);
    }
  }

  lemma {:induction false} VisitBridges(vs: seq<Vertex>, es: seq<Edge>, u: Vertex, s: Dfs)
    requires u.id in Ids(vs, es) && Pending(es, s, u)
    ensures NewBridges(s, Visit(vs, es, u, s, false), u)
    decreases Ids(vs, es) - s.disc.Keys, 0, 0, 0
  {
    TargetIds(vs, es, u);
    forall w | w in Targets(es, u) ensures HasEdgeIn(es, u, w) {
      TargetsMembers(es, u, w);
    }
    EnterShape(es, s, u);
    ScanBridges(vs, es, u, Targets(es, u), Enter(s, u), 0);
  }

  /** The bridge test after the call on the child `v` of `u`, one edge at a time. */
  lemma ReturnedBridge(es: seq<Edge>, s: Dfs, c: Dfs, u: Vertex, v: Vertex, children: nat, e: Edge)
    requires Ready(es, c) && u.id in s.disc && v.id !in s.disc && v.id in c.disc && u.id in c.disc
    requires v.id in c.parent && c.parent[v.id] == u.id && s.disc.Keys <= c.disc.Keys
    requires Prefix(s.bridges, c.bridges)
    requires e in Added(s.bridges, c.bridges) <==>
             e.target.id in c.disc && e.target.id !in s.disc && e.target.id != v.id && IsBridge(c, e)
    ensures var c1 := Returned(c, u, v, children);
            e in Added(s.bridges, c1.bridges) <==>
            e.target.id in c1.disc && e.target.id !in s.disc && e.target.id != u.id && IsBridge(c1, e)
  {
    var c1 := Returned(c, u, v, children);
    assert c1.disc == c.disc && c1.parent == c.parent;
    assert Prefix(c.bridges, c1.bridges);
    AddedSplit(s.bridges, c.bridges, c1.bridges);
    if e.target.id != u.id && e.target.id in c.low {
      assert c1.low[e.target.id] == c.low[e.target.id];
    }
  }

  lemma ReturnedBridges(es: seq<Edge>, s: Dfs, c: Dfs, u: Vertex, v: Vertex, children: nat)
    requires Ready(es, c) && u.id in s.disc && v.id !in s.disc && v.id in c.disc && u.id in c.disc
    requires v.id in c.parent && c.parent[v.id] == u.id && s.disc.Keys <= c.disc.Keys
    requires Prefix(s.bridges, c.bridges)
    requires NewBridges(s, c, v)
    ensures NewBridges(s, Returned(c, u, v, children), u)
  {
    forall e ensures var c1 := Returned(c, u, v, children);
        e in Added(s.bridges, c1.bridges) <==>
        e.target.id in c1.disc && e.target.id !in s.disc && e.target.id != u.id && IsBridge(c1, e) {
      ReturnedBridge(es, s, c, u, v, children, e);
    }
  }

  /** The call on the undiscovered first neighbour `v` of `u`, and the bridge test after it. */
  lemma {:induction false} ChildBridges(vs: seq<Vertex>, es: seq<Edge>, u: Vertex, ws: seq<Vertex>, s: Dfs, children: nat)
    requires u.id in s.disc && Ready(es, s) && ws != [] && ws[0].id !in s.disc
    requires forall w :: w in ws ==> w.id in Ids(vs, es) && HasEdgeIn(es, u, w)
    ensures var v := ws[0];
            NewBridges(s, Returned(Visit(vs, es, v, s.(parent := s.parent[v.id := u.id]), false), u, v, children + 1), u)
    decreases Ids(vs, es) - s.disc.Keys, 1, |ws|, 0
  {
    var v := ws[0];
    var s1 := s.(parent := s.parent[v.id := u.id]);
    VisitShape(vs, es, v, s1);
    VisitBridges(vs, es, v, s1);
    var c := Visit(vs, es, v, s1, false);
    assert c.parent[v.id] == u.id;
    ReturnedBridges(es, s, c, u, v, children + 1);
  }

  lemma {:induction false} ScanBridges(vs: seq<Vertex>, es: seq<Edge>, u: Vertex, ws: seq<Vertex>, s: Dfs, children: nat)
    requires u.id in s.disc && Ready(es, s)
    requires forall w :: w in ws ==> w.id in Ids(vs, es) && HasEdgeIn(es, u, w)
    ensures NewBridges(s, Scan(vs, es, u, ws, s, children, false), u)
    decreases Ids(vs, es) - s.disc.Keys, 1, |ws|, 2
  {
    if ws != [] {
      if ws[0].id !in s.disc {
        ScanBridgesChild(vs, es, u, ws, s, children);
      } else {
        ScanBridgesBack(vs, es, u, ws, s, children);
      }
    }
  }

  /** Composes the bridges of two consecutive steps on behalf of `u`, one edge at a time. */
  lemma BridgeTrans(es: seq<Edge>, s: Dfs, m: Dfs, r: Dfs, u: Vertex, e: Edge)
    requires Ready(es, m) && Keeps(s, m, u) && Keeps(m, r, u) && u.id in s.disc
    requires e in Added(s.bridges, m.bridges) <==>
             e.target.id in m.disc && e.target.id !in s.disc && e.target.id != u.id && IsBridge(m, e)
    requires e in Added(m.bridges, r.bridges) <==>
             e.target.id in r.disc && e.target.id !in m.disc && e.target.id != u.id && IsBridge(r, e)
    ensures e in Added(s.bridges, r.bridges) <==>
            e.target.id in r.disc && e.target.id !in s.disc && e.target.id != u.id && IsBridge(r, e)
  {
    AddedSplit(s.bridges, m.bridges, r.bridges);
    if e.target.id in m.disc && e.target.id != u.id {
      BridgeKept(es, m, r, u, e);
    }
  }

  lemma BridgesTrans(es: seq<Edge>, s: Dfs, m: Dfs, r: Dfs, u: Vertex)
    requires Ready(es, m) && Keeps(s, m, u) && Keeps(m, r, u) && u.id in s.disc
    requires NewBridges(s, m, u) && NewBridges(m, r, u)
    ensures NewBridges(s, r, u)
  {
    forall e ensures e in Added(s.bridges, r.bridges) <==>
        e.target.id in r.disc && e.target.id !in s.disc && e.target.id != u.id && IsBridge(r, e) {
      BridgeTrans(es, s, m, r, u, e);
    }
  }

  lemma {:induction false} ScanBridgesChild(vs: seq<Vertex>, es: seq<Edge>, u: Vertex, ws: seq<Vertex>, s: Dfs, children: nat)
    requires u.id in s.disc && Ready(es, s) && ws != [] && ws[0].id !in s.disc
    requires forall w :: w in ws ==> w.id in Ids(vs, es) && HasEdgeIn(es, u, w)
    ensures NewBridges(s, Scan(vs, es, u, ws, s, children, false), u)
    decreases Ids(vs, es) - s.disc.Keys, 1, |ws|, 1
  {
    var v := ws[0];
    var c := Returned(Visit(vs, es, v, s.(parent := s.parent[v.id := u.id]), false), u, v, children + 1);
    ChildShape(vs, es, u, ws, s, children);
    ChildBridges(vs, es, u, ws, s, children);
    ScanShape(vs, es, u, ws[1..], c, children + 1);
    ScanBridges(vs, es, u, ws[1..], c, children + 1);
    var r := Scan(vs, es, u, ws[1..], c, children + 1, false);
    assert Scan(vs, es, u, ws, s, children, false) == r;
    BridgesTrans(es, s, c, r, u);
  }

  lemma {:induction false} ScanBridgesBack(vs: seq<Vertex>, es: seq<Edge>, u: Vertex, ws: seq<Vertex>, s: Dfs, children: nat)
    requires u.id in s.disc && Ready(es, s) && ws != [] && ws[0].id in s.disc
    requires forall w :: w in ws ==> w.id in Ids(vs, es) && HasEdgeIn(es, u, w)
    ensures NewBridges(s, Scan(vs, es, u, ws, s, children, false), u)
    decreases Ids(vs, es) - s.disc.Keys, 1, |ws|, 1
  {
    var v := ws[0];
    assert s.(parent := Looked(s.parent, u, false)) == s;
    if Skips(s.parent, u, v) {
      ScanBridges(vs, es, u, ws[1..], s, children);
    } else {
      var s1 := Back(s, u, v);
      BackShape(es, s, u, v);
      ScanShape(vs, es, u, ws[1..], s1, children);
      ScanBridges(vs, es, u, ws[1..], s1, children);
      var r := Scan(vs, es, u, ws[1..], s1, children, false);
      assert Scan(vs, es, u, ws, s, children, false) == r;
      assert Added(s.bridges, s1.bridges) == [];
      BridgesTrans(es, s, s1, r, u);
    }
  }
}
