// The articulation points the low-link search records
// (include/algorithms/bfs_dfs/BridgesAndArticulationPoints.h:120-144), with the parent lookup as
// corrected: a vertex entered from the outer loop never gains a parent entry.

module LowLinkPoints {
  import opened GraphTypes
  import opened GraphBase
  import opened LowLinkSearch
  import opened LowLinkShape

  /** `c` is a child of `p` in the search tree. */
  ghost predicate IsChild(parent: map<int, int>, c: int, p: int) {
    c in parent && parent[c] == p
  }

  ghost predicate HasChild(parent: map<int, int>, p: int) {
    exists c :: IsChild(parent, c, p)
  }

  /**
   * `p` meets the test the search applies to it: with a parent, some child `c` has
   * `low[c] >= discoveryTime[p]`; without one, `p` has at least two children.
   */
  ghost predicate IsPoint(r: Dfs, p: int) {
    p in r.disc &&
    if p in r.parent then exists c :: IsChild(r.parent, c, p) && c in r.low && r.low[c] >= r.disc[p]
    else exists c1, c2 :: IsChild(r.parent, c1, p) && IsChild(r.parent, c2, p) && c1 != c2
  }

  /** The vertices other than `u` recorded from `s` to `r` are the new ones that meet the test. */
  ghost predicate NewPoints(s: Dfs, r: Dfs, u: Vertex) {
    forall p :: p != u.id ==> (p in Added(s.points, r.points) <==> p in r.disc && p !in s.disc && IsPoint(r, p))
  }

  /**
   * What the scan from `s` to `r` found out about `u` itself: with a parent, a new child `c` with
   * `low[c] >= discoveryTime[u]`; without one, a new child besides some other child.
   */
  ghost predicate Found(s: Dfs, r: Dfs, u: Vertex)
    requires u.id in r.disc
  {
    if u.id in s.parent then exists c :: IsChild(r.parent, c, u.id) && c !in s.disc && c in r.low && r.low[c] >= r.disc[u.id]
    else exists c1, c2 :: IsChild(r.parent, c1, u.id) && IsChild(r.parent, c2, u.id) && c1 != c2 && c1 !in s.disc
  }

  /** Whether `p`, discovered and not `u`, meets the test is not changed by a step on behalf of `u`. */
  lemma PointKept(es: seq<Edge>, m: Dfs, r: Dfs, u: Vertex, p: int)
    requires Ready(es, m) && Keeps(m, r, u) && p in m.disc && p != u.id && !IsChild(m.parent, u.id, p)
    ensures IsPoint(m, p) <==> IsPoint(r, p)
  {
    assert p in m.parent <==> p in r.parent;
    forall c | IsChild(r.parent, c, p) ensures IsChild(m.parent, c, p) && c != u.id {
      assert c in m.parent;
    }
    if p in m.parent {
      if IsPoint(m, p) {
        var c :| IsChild(m.parent, c, p) && c in m.low && m.low[c] >= m.disc[p];
        assert IsChild(r.parent, c, p);
      }
    } else {
      if IsPoint(m, p) {
        var c1, c2 :| IsChild(m.parent, c1, p) && IsChild(m.parent, c2, p) && c1 != c2;
        assert IsChild(r.parent, c1, p) && IsChild(r.parent, c2, p);
      }
    }
  }

  /** What two consecutive steps on behalf of `u` find about `u`. */
  lemma FoundTrans(es: seq<Edge>, s: Dfs, m: Dfs, r: Dfs, u: Vertex)
    requires Ready(es, s) && Ready(es, m) && Keeps(s, m, u) && Keeps(m, r, u) && u.id in s.disc
    ensures Found(s, r, u) <==> Found(s, m, u) || Found(m, r, u)
  {
    assert u.id in s.parent <==> u.id in m.parent;
    forall c | IsChild(m.parent, c, u.id) ensures IsChild(r.parent, c, u.id) {
    }
    forall c | IsChild(r.parent, c, u.id) && c in m.disc ensures IsChild(m.parent, c, u.id) && c != u.id {
      assert c in m.parent;
      assert TreeEdge(es, m, c);
    }
    if u.id in s.parent {
      if Found(s, r, u) {
        var c :| IsChild(r.parent, c, u.id) && c !in s.disc && c in r.low && r.low[c] >= r.disc[u.id];
        if c in m.disc {
          assert IsChild(m.parent, c, u.id) && c in m.low && m.low[c] >= m.disc[u.id];
        }
      }
      if Found(s, m, u) {
        var c :| IsChild(m.parent, c, u.id) && c !in s.disc && c in m.low && m.low[c] >= m.disc[u.id];
        assert c != u.id;
        assert IsChild(r.parent, c, u.id) && c in r.low && r.low[c] >= r.disc[u.id];
      }
    } else {
      if Found(s, r, u) {
        var c1, c2 :| IsChild(r.parent, c1, u.id) && IsChild(r.parent, c2, u.id) && c1 != c2 && c1 !in s.disc;
        if c1 in m.disc && c2 in m.disc {
          assert IsChild(m.parent, c1, u.id) && IsChild(m.parent, c2, u.id);
        } else if c1 in m.disc {
          assert IsChild(r.parent, c2, u.id) && IsChild(r.parent, c1, u.id) && c2 != c1 && c2 !in m.disc;
        }
      }
      if Found(s, m, u) {
        var c1, c2 :| IsChild(m.parent, c1, u.id) && IsChild(m.parent, c2, u.id) && c1 != c2 && c1 !in s.disc;
        assert IsChild(r.parent, c1, u.id) && IsChild(r.parent, c2, u.id);
      }
    }
  }

  /** Composes the recorded points of two consecutive steps on behalf of `u`. */
  lemma PointsTrans(es: seq<Edge>, s: Dfs, m: Dfs, r: Dfs, u: Vertex)
    requires Ready(es, s) && Ready(es, m) && Keeps(s, m, u) && Keeps(m, r, u) && u.id in s.disc
    requires NewPoints(s, m, u) && NewPoints(m, r, u)
    requires u.id in Added(s.points, m.points) <==> Found(s, m, u)
    requires u.id in Added(m.points, r.points) <==> Found(m, r, u)
    ensures NewPoints(s, r, u)
    ensures u.id in Added(s.points, r.points) <==> Found(s, r, u)
  {
    AddedSplit(s.points, m.points, r.points);
    FoundTrans(es, s, m, r, u);
    forall p | p != u.id ensures p in Added(s.points, r.points) <==> p in r.disc && p !in s.disc && IsPoint(r, p) {
      if p in m.disc && p !in s.disc {
        assert !IsChild(m.parent, u.id, p) by {
          if u.id in m.parent {
            assert TreeEdge(es, s, u.id);
          }
        }
        PointKept(es, m, r, u, p);
      }
    }
  }

  lemma {:induction false} VisitPoints(vs: seq<Vertex>, es: seq<Edge>, u: Vertex, s: Dfs)
    requires u.id in Ids(vs, es) && Pending(es, s, u)
    ensures var r := Visit(vs, es, u, s, false);
            NewPoints(s, r, u) && (u.id in Added(s.points, r.points) <==> IsPoint(r, u.id))
    decreases Ids(vs, es) - s.disc.Keys, 0, 0, 0
  {
    TargetIds(vs, es, u);
    forall w | w in Targets(es, u) ensures HasEdgeIn(es, u, w) {
      TargetsMembers(es, u, w);
    }
    var s1 := Enter(s, u);
    EnterShape(es, s, u);
    assert !HasChild(s1.parent, u.id) by {
      forall c | c in s1.parent ensures s1.parent[c] != u.id {
        if c != u.id {
          assert TreeEdge(es, s, c);
        }
      }
    }
    ScanShape(vs, es, u, Targets(es, u), s1, 0);
    ScanPoints(vs, es, u, Targets(es, u), s1, 0);
    var r := Scan(vs, es, u, Targets(es, u), s1, 0, false);
    RootFound(es, s, s1, r, u);
  }

  /** At the end of the call on `u`, what the scan found about `u` is the test on `u`. */
  lemma RootFound(es: seq<Edge>, s: Dfs, s1: Dfs, r: Dfs, u: Vertex)
    requires Pending(es, s, u) && s1 == Enter(s, u) && Ready(es, s1) && Keeps(s1, r, u) && !HasChild(s1.parent, u.id)
    ensures Found(s1, r, u) <==> IsPoint(r, u.id)
  {
    assert u.id in s1.parent <==> u.id in r.parent;
    forall c | IsChild(r.parent, c, u.id) ensures c !in s1.disc {
      if c in s1.parent {
        assert IsChild(s1.parent, c, u.id);
      }
    }
  }

  lemma {:induction false} ScanPoints(vs: seq<Vertex>, es: seq<Edge>, u: Vertex, ws: seq<Vertex>, s: Dfs, children: nat)
    requires u.id in s.disc && Ready(es, s) && (children > 0 <==> HasChild(s.parent, u.id))
    requires forall w :: w in ws ==> w.id in Ids(vs, es) && HasEdgeIn(es, u, w)
    ensures var r := Scan(vs, es, u, ws, s, children, false);
            NewPoints(s, r, u) && (u.id in Added(s.points, r.points) <==> Found(s, r, u))
    decreases Ids(vs, es) - s.disc.Keys, 1, |ws|, 2
  {
    if ws != [] {
      if ws[0].id !in s.disc {
        ScanPointsChild(vs, es, u, ws, s, children);
      } else {
        ScanPointsBack(vs, es, u, ws, s, children);
      }
    }
  }

  /** A change of `low` at `u` alone does not change whether `p`, of which `u` is no child, meets the test. */
  lemma LowOnlyAt(m: Dfs, r: Dfs, u: Vertex, p: int)
    requires m.disc == r.disc && m.parent == r.parent && m.low.Keys == r.low.Keys
    requires forall k :: k in m.low && k != u.id ==> r.low[k] == m.low[k]
    requires p != u.id && !IsChild(m.parent, u.id, p)
    ensures IsPoint(m, p) <==> IsPoint(r, p)
  {
    if p in m.disc && p in m.parent {
      if IsPoint(m, p) {
        var k :| IsChild(m.parent, k, p) && k in m.low && m.low[k] >= m.disc[p];
        assert k != u.id;
      }
      if IsPoint(r, p) {
        var k :| IsChild(r.parent, k, p) && k in r.low && r.low[k] >= r.disc[p];
        assert k != u.id;
      }
    }
  }

  /** Besides `v`, the children of `u` after the call on `v` are those it had before. */
  lemma OtherChildren(es: seq<Edge>, s: Dfs, s1: Dfs, c: Dfs, u: Vertex, v: Vertex, k: int)
    requires Ready(es, s) && u.id in s.disc && v.id !in s.disc
    requires s1 == s.(parent := s.parent[v.id := u.id]) && Keeps(s1, c, v)
    ensures k != v.id ==> (IsChild(c.parent, k, u.id) <==> IsChild(s.parent, k, u.id))
    ensures IsChild(s.parent, k, u.id) ==> k in s.disc
    ensures IsChild(c.parent, k, u.id) && k !in s.disc ==> k == v.id
  {
    if k in s.parent {
      assert TreeEdge(es, s, k);
    }
  }

  /** After the call on the undiscovered `v`, `v` is the only child of `u` that is new. */
  lemma OnlyNewChild(es: seq<Edge>, s: Dfs, s1: Dfs, c: Dfs, u: Vertex, v: Vertex)
    requires Ready(es, s) && u.id in s.disc && v.id !in s.disc
    requires s1 == s.(parent := s.parent[v.id := u.id]) && KeepsLinks(s1, c, v)
    ensures forall k :: IsChild(c.parent, k, u.id) && k !in s.disc ==> k == v.id
  {
    forall k | IsChild(c.parent, k, u.id) && k !in s.disc ensures k == v.id {
      assert k in s.parent ==> TreeEdge(es, s, k);
    }
  }

  /** What `Returned` adds to the points and to the children of `u`. */
  lemma ReturnedAdds(es: seq<Edge>, s: Dfs, s1: Dfs, c: Dfs, u: Vertex, v: Vertex, children: nat)
    requires Ready(es, s) && Ready(es, c) && u.id in s.disc && v.id !in s.disc && v.id in c.disc
    requires s1 == s.(parent := s.parent[v.id := u.id]) && Keeps(s1, c, v)
    requires NewPoints(s1, c, v)
    ensures var c1 := Returned(c, u, v, children + 1);
            c1.disc == c.disc && c1.parent == c.parent && c1.low[v.id] == c.low[v.id] &&
            IsChild(c1.parent, v.id, u.id) && (u.id in s.parent <==> u.id in c.parent) &&
            (u.id in Added(s.points, c1.points) <==>
              (u.id !in s.parent && children > 0) || (u.id in s.parent && c.low[v.id] >= c.disc[u.id]))
  {
    var c1 := Returned(c, u, v, children + 1);
    assert u.id in s.parent ==> TreeEdge(es, s, u.id);
    assert u.id in s.parent <==> u.id in c.parent;
    var root := if u.id !in c.parent && children + 1 > 1 then [u.id] else [];
    var cut := if u.id in c.parent && c.low[v.id] >= c.disc[u.id] then [u.id] else [];
    assert c1.points == c.points + (root + cut);
    assert Added(c.points, c1.points) == root + cut;
    AddedSplit(s.points, c.points, c1.points);
    assert u.id !in Added(s.points, c.points);
  }

  /** The test on `u` after the call on its child `v` returns. */
  lemma ReturnedFound(es: seq<Edge>, s: Dfs, s1: Dfs, c: Dfs, u: Vertex, v: Vertex, children: nat)
    requires Ready(es, s) && Ready(es, c) && u.id in s.disc && v.id !in s.disc && v.id in c.disc
    requires s1 == s.(parent := s.parent[v.id := u.id]) && Keeps(s1, c, v)
    requires children > 0 <==> HasChild(s.parent, u.id)
    requires NewPoints(s1, c, v)
    ensures var c1 := Returned(c, u, v, children + 1);
            (u.id in Added(s.points, c1.points) <==> Found(s, c1, u)) && HasChild(c1.parent, u.id)
  {
    var c1 := Returned(c, u, v, children + 1);
    ReturnedAdds(es, s, s1, c, u, v, children);
    if u.id in s.parent {
      if Found(s, c1, u) {
        var k :| IsChild(c1.parent, k, u.id) && k !in s.disc && k in c1.low && c1.low[k] >= c1.disc[u.id];
        OtherChildren(es, s, s1, c, u, v, k);
      }
    } else {
      if Found(s, c1, u) {
        var k1, k2 :| IsChild(c1.parent, k1, u.id) && IsChild(c1.parent, k2, u.id) && k1 != k2 && k1 !in s.disc;
        OtherChildren(es, s, s1, c, u, v, k1);
        OtherChildren(es, s, s1, c, u, v, k2);
      }
      if children > 0 {
        var k :| IsChild(s.parent, k, u.id);
        OtherChildren(es, s, s1, c, u, v, k);
        assert IsChild(c1.parent, v.id, u.id) && IsChild(c1.parent, k, u.id) && v.id != k && v.id !in s.disc;
      }
    }
  }

  /** One vertex other than `u` after the call on the child `v` of `u` returns. */
  lemma ReturnedOther(es: seq<Edge>, s: Dfs, s1: Dfs, c: Dfs, u: Vertex, v: Vertex, children: nat, p: int)
    requires Ready(es, s) && Ready(es, c) && u.id in s.disc && v.id !in s.disc && v.id in c.disc
    requires s1 == s.(parent := s.parent[v.id := u.id]) && Keeps(s1, c, v)
    requires NewPoints(s1, c, v) && (v.id in Added(s1.points, c.points) <==> IsPoint(c, v.id))
    requires p != u.id
    ensures var c1 := Returned(c, u, v, children + 1);
            p in Added(s.points, c1.points) <==> p in c1.disc && p !in s.disc && IsPoint(c1, p)
  {
    var c1 := Returned(c, u, v, children + 1);
    ReturnedRecordsOnlyU(s.points, c, u, v, children, p);
    if p in c.disc && p !in s.disc {
      assert !IsChild(c.parent, u.id, p) by {
        if u.id in s.parent {
          assert TreeEdge(es, s, u.id);
        }
      }
      LowOnlyAt(c, c1, u, p);
    }
  }

  /** The return to `u` records nothing but `u`, and changes only `low[u]`. */
  lemma ReturnedRecordsOnlyU(a: seq<int>, c: Dfs, u: Vertex, v: Vertex, children: nat, p: int)
    requires u.id in c.disc && u.id in c.low && v.id in c.low && Prefix(a, c.points) && p != u.id
    ensures var c1 := Returned(c, u, v, children + 1);
            c1.disc == c.disc && c1.parent == c.parent && c1.low.Keys == c.low.Keys &&
            (forall k :: k in c.low && k != u.id ==> c1.low[k] == c.low[k]) &&
            (p in Added(a, c1.points) <==> p in Added(a, c.points))
  {
    var c1 := Returned(c, u, v, children + 1);
    assert Prefix(c.points, c1.points);
    AddedSplit(a, c.points, c1.points);
  }

  /** The test after the call on the child `v` of `u`. */
  lemma ReturnedPoints(es: seq<Edge>, s: Dfs, s1: Dfs, c: Dfs, u: Vertex, v: Vertex, children: nat)
    requires Ready(es, s) && Ready(es, c) && u.id in s.disc && v.id !in s.disc && v.id in c.disc
    requires s1 == s.(parent := s.parent[v.id := u.id]) && Keeps(s1, c, v)
    requires children > 0 <==> HasChild(s.parent, u.id)
    requires NewPoints(s1, c, v) && (v.id in Added(s1.points, c.points) <==> IsPoint(c, v.id))
    ensures var c1 := Returned(c, u, v, children + 1);
            NewPoints(s, c1, u) && (u.id in Added(s.points, c1.points) <==> Found(s, c1, u)) &&
            HasChild(c1.parent, u.id)
  {
    ReturnedFound(es, s, s1, c, u, v, children);
    var c1 := Returned(c, u, v, children + 1);
    forall p | p != u.id ensures p in Added(s.points, c1.points) <==> p in c1.disc && p !in s.disc && IsPoint(c1, p) {
      ReturnedOther(es, s, s1, c, u, v, children, p);
    }
  }

  /** The call on the undiscovered first neighbour `v` of `u`, and the test after it. */
  lemma {:induction false} ChildPoints(vs: seq<Vertex>, es: seq<Edge>, u: Vertex, ws: seq<Vertex>, s: Dfs, children: nat)
    requires u.id in s.disc && Ready(es, s) && ws != [] && ws[0].id !in s.disc && (children > 0 <==> HasChild(s.parent, u.id))
    requires forall w :: w in ws ==> w.id in Ids(vs, es) && HasEdgeIn(es, u, w)
    ensures var v := ws[0];
            var c1 := Returned(Visit(vs, es, v, s.(parent := s.parent[v.id := u.id]), false), u, v, children + 1);
            NewPoints(s, c1, u) && (u.id in Added(s.points, c1.points) <==> Found(s, c1, u)) && HasChild(c1.parent, u.id)
    decreases Ids(vs, es) - s.disc.Keys, 1, |ws|, 0
  {
    var v := ws[0];
    var s1 := s.(parent := s.parent[v.id := u.id]);
    VisitShape(vs, es, v, s1);
    VisitPoints(vs, es, v, s1);
    ReturnedPoints(es, s, s1, Visit(vs, es, v, s1, false), u, v, children);
  }

  lemma {:induction false} ScanPointsChild(vs: seq<Vertex>, es: seq<Edge>, u: Vertex, ws: seq<Vertex>, s: Dfs, children: nat)
    requires u.id in s.disc && Ready(es, s) && ws != [] && ws[0].id !in s.disc && (children > 0 <==> HasChild(s.parent, u.id))
    requires forall w :: w in ws ==> w.id in Ids(vs, es) && HasEdgeIn(es, u, w)
    ensures var r := Scan(vs, es, u, ws, s, children, false);
            NewPoints(s, r, u) && (u.id in Added(s.points, r.points) <==> Found(s, r, u))
    decreases Ids(vs, es) - s.disc.Keys, 1, |ws|, 1
  {
    var v := ws[0];
    var c := Returned(Visit(vs, es, v, s.(parent := s.parent[v.id := u.id]), false), u, v, children + 1);
    ChildShape(vs, es, u, ws, s, children);
    ChildPoints(vs, es, u, ws, s, children);
    ScanShape(vs, es, u, ws[1..], c, children + 1);
    ScanPoints(vs, es, u, ws[1..], c, children + 1);
    var r := Scan(vs, es, u, ws[1..], c, children + 1, false);
    assert Scan(vs, es, u, ws, s, children, false) == r;
    PointsTrans(es, s, c, r, u);
  }

  lemma {:induction false} ScanPointsBack(vs: seq<Vertex>, es: seq<Edge>, u: Vertex, ws: seq<Vertex>, s: Dfs, children: nat)
    requires u.id in s.disc && Ready(es, s) && ws != [] && ws[0].id in s.disc && (children > 0 <==> HasChild(s.parent, u.id))
    requires forall w :: w in ws ==> w.id in Ids(vs, es) && HasEdgeIn(es, u, w)
    ensures var r := Scan(vs, es, u, ws, s, children, false);
            NewPoints(s, r, u) && (u.id in Added(s.points, r.points) <==> Found(s, r, u))
    decreases Ids(vs, es) - s.disc.Keys, 1, |ws|, 1
  {
    var v := ws[0];
    assert s.(parent := Looked(s.parent, u, false)) == s;
    if Skips(s.parent, u, v) {
      ScanPoints(vs, es, u, ws[1..], s, children);
    } else {
      var s1 := Back(s, u, v);
      BackShape(es, s, u, v);
      assert HasChild(s.parent, u.id) <==> HasChild(s1.parent, u.id);
      ScanShape(vs, es, u, ws[1..], s1, children);
      ScanPoints(vs, es, u, ws[1..], s1, children);
      var r := Scan(vs, es, u, ws[1..], s1, children, false);
      assert Scan(vs, es, u, ws, s, children, false) == r;
      BackThen(es, s, u, v, r);
    }
  }

  /** A scan that starts with the step on an already discovered `v` records what the rest of it records. */
  lemma BackThen(es: seq<Edge>, s: Dfs, u: Vertex, v: Vertex, r: Dfs)
    requires Ready(es, s) && u.id in s.disc && v.id in s.disc
    requires Ready(es, r) && Keeps(Back(s, u, v), r, u)
    requires NewPoints(Back(s, u, v), r, u)
    requires u.id in Added(Back(s, u, v).points, r.points) <==> Found(Back(s, u, v), r, u)
    ensures NewPoints(s, r, u) && (u.id in Added(s.points, r.points) <==> Found(s, r, u))
  {
    var s1 := Back(s, u, v);
    BackShape(es, s, u, v);
    assert Added(s.points, s1.points) == [];
    assert !Found(s, s1, u);
    PointsTrans(es, s, s1, r, u);
  }
}
