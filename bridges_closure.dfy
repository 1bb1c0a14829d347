// Completeness of the depth-first search behind `findBridges` and `findArticulationPoints`
// (include/algorithms/bfs_dfs/BridgesAndArticulationPoints.h:36-41, 55-60, 84-85, 124-125): every
// neighbour of a vertex the search finishes is discovered, and so is every listed vertex. It holds
// whichever way the parent lookup behaves.

module LowLinkClosure {
  import opened GraphTypes
  import opened GraphBase
  import opened LowLinkSearch

  /** Every neighbour of a vertex discovered between `s` and `r` is discovered in `r`. */
  ghost predicate Finished(es: seq<Edge>, s: Dfs, r: Dfs) {
    forall v: Vertex, w: Vertex :: v.id in r.disc && v.id !in s.disc && HasEdgeIn(es, v, w) ==> w.id in r.disc
  }

  /** Every neighbour of a discovered vertex is discovered. */
  ghost predicate Closed(es: seq<Edge>, s: Dfs) {
    forall v: Vertex, w: Vertex :: v.id in s.disc && HasEdgeIn(es, v, w) ==> w.id in s.disc
  }

  lemma FinishedTrans(es: seq<Edge>, s: Dfs, m: Dfs, r: Dfs)
    requires s.disc.Keys <= m.disc.Keys <= r.disc.Keys && Finished(es, s, m) && Finished(es, m, r)
    ensures Finished(es, s, r)
  {
    forall v: Vertex, w: Vertex | v.id in r.disc && v.id !in s.disc && HasEdgeIn(es, v, w) ensures w.id in r.disc {
      if v.id in m.disc {
        assert w.id in m.disc;
      }
    }
  }

  lemma {:induction false} VisitCloses(vs: seq<Vertex>, es: seq<Edge>, u: Vertex, s: Dfs, inserting: bool)
    requires u.id in Ids(vs, es) && u.id !in s.disc
    ensures Finished(es, s, Visit(vs, es, u, s, inserting))
    decreases Ids(vs, es) - s.disc.Keys, 0, 0
  {
    TargetIds(vs, es, u);
    var s1 := Enter(s, u);
    var r := Visit(vs, es, u, s, inserting);
    ScanCloses(vs, es, u, Targets(es, u), s1, 0, inserting);
    forall v: Vertex, w: Vertex | v.id in r.disc && v.id !in s.disc && HasEdgeIn(es, v, w) ensures w.id in r.disc {
      if v.id == u.id {
        assert v == u;
        TargetsMembers(es, u, w);
      }
    }
  }

  lemma {:induction false} ScanCloses(vs: seq<Vertex>, es: seq<Edge>, u: Vertex, ws: seq<Vertex>, s: Dfs,
                                      children: nat, inserting: bool)
    requires u.id in s.disc && u.id in s.low
    requires forall w :: w in ws ==> w.id in Ids(vs, es)
    ensures var r := Scan(vs, es, u, ws, s, children, inserting);
            Finished(es, s, r) && forall w :: w in ws ==> w.id in r.disc
    decreases Ids(vs, es) - s.disc.Keys, 1, |ws|
  {
    if ws != [] {
      var v := ws[0];
      var r := Scan(vs, es, u, ws, s, children, inserting);
      if v.id !in s.disc {
        var s1 := s.(parent := s.parent[v.id := u.id]);
        var c := Visit(vs, es, v, s1, inserting);
        VisitCloses(vs, es, v, s1, inserting);
        var c1 := Returned(c, u, v, children + 1);
        ScanCloses(vs, es, u, ws[1..], c1, children + 1, inserting);
        assert r == Scan(vs, es, u, ws[1..], c1, children + 1, inserting);
        FinishedTrans(es, s, c1, r);
      } else {
        var s1 := s.(parent := Looked(s.parent, u, inserting));
        var s2 := if Skips(s1.parent, u, v) then s1 else Back(s1, u, v);
        ScanCloses(vs, es, u, ws[1..], s2, children, inserting);
        assert r == Scan(vs, es, u, ws[1..], s2, children, inserting);
      }
      forall w | w in ws ensures w.id in r.disc {
        if w != v {
          assert w in ws[1..];
        }
      }
    }
  }

  lemma {:induction false} SweepCloses(vs: seq<Vertex>, es: seq<Edge>, ws: seq<Vertex>, s: Dfs, inserting: bool)
    requires forall w :: w in ws ==> w in vs
    requires Closed(es, s)
    ensures var r := Sweep(vs, es, ws, s, inserting);
            Closed(es, r) && forall w :: w in ws ==> w.id in r.disc
    decreases |ws|
  {
    if ws != [] {
      var r := Sweep(vs, es, ws, s, inserting);
      var s1 := if ws[0].id in s.disc then s else Visit(vs, es, ws[0], s, inserting);
      if ws[0].id !in s.disc {
        VisitCloses(vs, es, ws[0], s, inserting);
        forall v: Vertex, w: Vertex | v.id in s1.disc && HasEdgeIn(es, v, w) ensures w.id in s1.disc {
        }
      }
      SweepCloses(vs, es, ws[1..], s1, inserting);
      forall w | w in ws ensures w.id in r.disc {
        if w != ws[0] {
          assert w in ws[1..];
        }
      }
    }
  }

  /**
   * After a whole search every listed vertex is discovered, and so is every neighbour of a
   * discovered vertex: the search reaches everything reachable from the vertex list.
   */
  lemma SearchCloses(vs: seq<Vertex>, es: seq<Edge>, t: int)
    ensures var r := Search(vs, es, t);
            Closed(es, r) && forall v :: v in vs ==> v.id in r.disc
  {
    SweepCloses(vs, es, vs, Start(t), false);
  }
}
