// What the low links the search computes are
// (include/algorithms/bfs_dfs/BridgesAndArticulationPoints.h:83, 92, 98-101, 119, 131, 145-148), with
// the parent lookup as corrected: once a vertex `k` is finished, `low[k]` is the least of
// `discoveryTime[k]`, the low links of its tree children and the discovery times of its
// neighbours other than its parent.

module LowLinkValues {
  import opened GraphTypes
  import opened GraphBase
  import opened LowLinkSearch
  import opened LowLinkShape
  import opened LowLinkPoints

  /** `w` is a neighbour of `k` that the scan of `k` does not skip as its parent. */
  ghost predicate Counted(es: seq<Edge>, r: Dfs, k: int, w: Vertex) {
    HasEdgeIn(es, Vertex(k), w) && !Skips(r.parent, Vertex(k), w)
  }

  /** `low[k]` is a lower bound of the candidates and equals one of them. */
  ghost predicate ExactLow(es: seq<Edge>, r: Dfs, k: int) {
    k in r.disc && k in r.low &&
    r.low[k] <= r.disc[k] &&
    (forall c :: IsChild(r.parent, c, k) ==> c in r.low && r.low[k] <= r.low[c]) &&
    (forall w :: Counted(es, r, k, w) ==> w.id in r.disc && r.low[k] <= r.disc[w.id]) &&
    (r.low[k] == r.disc[k] ||
     (exists c :: IsChild(r.parent, c, k) && c in r.low && r.low[k] == r.low[c]) ||
     (exists w :: Counted(es, r, k, w) && w.id in r.disc && r.low[k] == r.disc[w.id]))
  }

  /** Every vertex other than `u` discovered from `s` to `r` has its exact low link. */
  ghost predicate NewLows(es: seq<Edge>, s: Dfs, r: Dfs, u: Vertex) {
    forall k :: k in r.disc && k !in s.disc && k != u.id ==> ExactLow(es, r, k)
  }

  /**
   * What the scan of the neighbours `ws` of `u` from `s` to `r` did to `low[u]`: it only fell,
   * it is at most the discovery time of every neighbour not skipped and the low link of every new
   * child, and it is the old value or one of these.
   */
  ghost predicate ScanLowered(s: Dfs, r: Dfs, u: Vertex, ws: seq<Vertex>)
    requires u.id in s.low && u.id in r.low
  {
    r.low[u.id] <= s.low[u.id] &&
    (forall w :: w in ws && !Skips(r.parent, u, w) ==> w.id in r.disc && r.low[u.id] <= r.disc[w.id]) &&
    (forall c :: IsChild(r.parent, c, u.id) && c !in s.disc ==> c in r.low && r.low[u.id] <= r.low[c]) &&
    (r.low[u.id] == s.low[u.id] ||
     (exists w :: w in ws && !Skips(r.parent, u, w) && w.id in r.disc && r.low[u.id] == r.disc[w.id]) ||
     (exists c :: IsChild(r.parent, c, u.id) && c !in s.disc && c in r.low && r.low[u.id] == r.low[c]))
  }

  /** A step on behalf of `u` keeps the exact low link of a vertex `k` of which `u` is no child. */
  lemma LowKept(es: seq<Edge>, m: Dfs, r: Dfs, u: Vertex, k: int)
    requires Ready(es, m) && Keeps(m, r, u) && k in m.disc && k != u.id && !IsChild(m.parent, u.id, k)
    requires ExactLow(es, m, k)
    ensures ExactLow(es, r, k)
  {
    assert k in m.parent <==> k in r.parent;
    forall c | IsChild(r.parent, c, k) ensures IsChild(m.parent, c, k) && c != u.id && c in r.low && r.low[c] == m.low[c] {
      assert c in m.parent;
      assert TreeEdge(es, m, c);
    }
    forall w | Counted(es, r, k, w) ensures Counted(es, m, k, w) {
    }
    if r.low[k] != r.disc[k] {
      if exists c :: IsChild(m.parent, c, k) && c in m.low && m.low[k] == m.low[c] {
        var c :| IsChild(m.parent, c, k) && c in m.low && m.low[k] == m.low[c];
        assert IsChild(r.parent, c, k);
        assert TreeEdge(es, m, c);
      } else {
        var w :| Counted(es, m, k, w) && w.id in m.disc && m.low[k] == m.disc[w.id];
        assert Counted(es, r, k, w);
      }
    }
  }

  /** Composes the exact low links of two consecutive steps on behalf of `u`. */
  lemma NewLowsTrans(es: seq<Edge>, s: Dfs, m: Dfs, r: Dfs, u: Vertex)
    requires Ready(es, s) && Ready(es, m) && Keeps(s, m, u) && Keeps(m, r, u) && u.id in s.disc
    requires NewLows(es, s, m, u) && NewLows(es, m, r, u)
    ensures NewLows(es, s, r, u)
  {
    forall k | k in r.disc && k !in s.disc && k != u.id ensures ExactLow(es, r, k) {
      if k in m.disc {
        assert !IsChild(m.parent, u.id, k) by {
          if u.id in m.parent {
            assert TreeEdge(es, s, u.id);
          }
        }
        LowKept(es, m, r, u, k);
      }
    }
  }

  /** Composes what the scan of `[ws[0]]` and then of `ws[1..]` did to `low[u]`. */
  lemma LoweredTrans(es: seq<Edge>, s: Dfs, m: Dfs, r: Dfs, u: Vertex, ws: seq<Vertex>)
    requires Ready(es, s) && Ready(es, m) && Keeps(s, m, u) && Keeps(m, r, u) && u.id in s.disc && ws != []
    requires u.id in m.low && u.id in r.low
    requires ScanLowered(s, m, u, [ws[0]]) && ScanLowered(m, r, u, ws[1..])
    ensures ScanLowered(s, r, u, ws)
  {
    Members(ws);
    OldChildren(es, m, r, u);
    LoweredCompose(s, m, r, u, ws);
  }

  /** The composition of `LoweredTrans` on the facts about the two steps it needs. */
  lemma LoweredCompose(s: Dfs, m: Dfs, r: Dfs, u: Vertex, ws: seq<Vertex>)
    requires ws != [] && u.id in s.low && u.id in m.low && u.id in r.low
    requires ScanLowered(s, m, u, [ws[0]]) && ScanLowered(m, r, u, ws[1..])
    requires forall w :: w in ws <==> w == ws[0] || w in ws[1..]
    requires forall k :: k in s.disc ==> k in m.disc
    requires forall k :: k in m.disc ==> k in r.disc && r.disc[k] == m.disc[k]
    requires forall k :: k in m.low && k != u.id ==> k in r.low && r.low[k] == m.low[k]
    requires forall k :: k in m.parent ==> k in r.parent && r.parent[k] == m.parent[k]
    requires u.id in r.parent ==> u.id in m.parent
    requires forall c :: IsChild(r.parent, c, u.id) && c in m.disc ==> IsChild(m.parent, c, u.id) && c != u.id
    ensures ScanLowered(s, r, u, ws)
  {
    if r.low[u.id] != s.low[u.id] {
      if r.low[u.id] == m.low[u.id] {
        if exists w :: w in [ws[0]] && !Skips(m.parent, u, w) && w.id in m.disc && m.low[u.id] == m.disc[w.id] {
          var w :| w in [ws[0]] && !Skips(m.parent, u, w) && w.id in m.disc && m.low[u.id] == m.disc[w.id];
          assert w in ws && !Skips(r.parent, u, w) && w.id in r.disc && r.low[u.id] == r.disc[w.id];
        } else {
          var c :| IsChild(m.parent, c, u.id) && c !in s.disc && c in m.low && m.low[u.id] == m.low[c];
          assert IsChild(r.parent, c, u.id) && c in r.low && r.low[u.id] == r.low[c];
        }
      } else if exists w :: w in ws[1..] && !Skips(r.parent, u, w) && w.id in r.disc && r.low[u.id] == r.disc[w.id] {
        var w :| w in ws[1..] && !Skips(r.parent, u, w) && w.id in r.disc && r.low[u.id] == r.disc[w.id];
        assert w in ws;
      } else {
        var c :| IsChild(r.parent, c, u.id) && c !in m.disc && c in r.low && r.low[u.id] == r.low[c];
        assert c !in s.disc;
      }
    }
  }

  /** The members of a nonempty sequence are its head and the members of its tail. */
  lemma Members(ws: seq<Vertex>)
    requires ws != []
    ensures forall w :: w in ws <==> w == ws[0] || w in ws[1..]
  {
    forall w | w in ws && w != ws[0] ensures w in ws[1..] {
      var i :| 0 <= i < |ws| && ws[i] == w;
      assert ws[1..][i - 1] == w;
    }
  }

  /** A child of `u` in `r` that `m` had already discovered was already a child of `u` in `m`. */
  lemma OldChildren(es: seq<Edge>, m: Dfs, r: Dfs, u: Vertex)
    requires Ready(es, m) && Keeps(m, r, u)
    ensures forall c :: IsChild(r.parent, c, u.id) && c in m.disc ==> IsChild(m.parent, c, u.id) && c != u.id
  {
    forall c | IsChild(r.parent, c, u.id) && c in m.disc ensures IsChild(m.parent, c, u.id) && c != u.id {
      assert c in m.parent;
      assert TreeEdge(es, m, c);
    }
  }

  /** The step on an already discovered neighbour `v`. */
  lemma BackLowered(es: seq<Edge>, s: Dfs, u: Vertex, v: Vertex)
    requires Ready(es, s) && u.id in s.disc && v.id in s.disc
    ensures var s2 := if Skips(s.parent, u, v) then s else Back(s, u, v);
            ScanLowered(s, s2, u, [v]) && NewLows(es, s, s2, u)
  {
  }

  /** The call on the undiscovered neighbour `v` of `u`, and the return to `u`. */
  lemma {:induction false} ChildLowered(vs: seq<Vertex>, es: seq<Edge>, u: Vertex, ws: seq<Vertex>, s: Dfs, children: nat)
    requires u.id in s.disc && Ready(es, s) && ws != [] && ws[0].id !in s.disc
    requires forall w :: w in ws ==> w.id in Ids(vs, es) && HasEdgeIn(es, u, w)
    ensures var v := ws[0];
            var c1 := Returned(Visit(vs, es, v, s.(parent := s.parent[v.id := u.id]), false), u, v, children + 1);
            ScanLowered(s, c1, u, [v]) && NewLows(es, s, c1, u)
    decreases Ids(vs, es) - s.disc.Keys, 1, |ws|, 0
  {
    var v := ws[0];
    var s1 := s.(parent := s.parent[v.id := u.id]);
    VisitLow(vs, es, v, s1);
    CallLows(vs, es, u, v, s, s1, children);
  }

  /** The call on `v` with its exact low links, then the return to `u`. */
  lemma CallLows(vs: seq<Vertex>, es: seq<Edge>, u: Vertex, v: Vertex, s: Dfs, s1: Dfs, children: nat)
    requires u.id in s.disc && Ready(es, s) && v.id !in s.disc && v.id in Ids(vs, es) && HasEdgeIn(es, u, v)
    requires s1 == s.(parent := s.parent[v.id := u.id]) && Pending(es, s1, v)
    requires var c := Visit(vs, es, v, s1, false); NewLows(es, s1, c, v) && ExactLow(es, c, v.id)
    ensures var c1 := Returned(Visit(vs, es, v, s1, false), u, v, children + 1);
            ScanLowered(s, c1, u, [v]) && NewLows(es, s, c1, u)
  {
    VisitShape(vs, es, v, s1);
    var c := Visit(vs, es, v, s1, false);
    KeepsChild(s, c, u, v);
    ReturnedShape(es, c, u, v, children + 1);
    var c1 := Returned(c, u, v, children + 1);
    ReturnedLows(es, s, s1, c, c1, u, v, children);
  }

  /** The return to `u` after the call on `v`: `ReturnedLowered` and `ReturnedNewLows` together. */
  lemma ReturnedLows(es: seq<Edge>, s: Dfs, s1: Dfs, c: Dfs, c1: Dfs, u: Vertex, v: Vertex, children: nat)
    requires Ready(es, s) && Ready(es, c) && u.id in s.disc && v.id !in s.disc && v.id in c.disc
    requires s1 == s.(parent := s.parent[v.id := u.id]) && Keeps(s1, c, v) && Keeps(c, c1, u)
    requires c.low[u.id] == s.low[u.id] && c1 == Returned(c, u, v, children + 1)
    requires NewLows(es, s1, c, v) && ExactLow(es, c, v.id)
    ensures ScanLowered(s, c1, u, [v]) && NewLows(es, s, c1, u)
  {
    ReturnedLowered(es, s, s1, c, c1, u, v, children);
    ReturnedNewLows(es, s, s1, c, c1, u, v, children);
  }

  /** The return to `u` after the call on `v`: what the step did to `low[u]`. */
  lemma ReturnedLowered(es: seq<Edge>, s: Dfs, s1: Dfs, c: Dfs, c1: Dfs, u: Vertex, v: Vertex, children: nat)
    requires Ready(es, s) && Ready(es, c) && u.id in s.disc && v.id !in s.disc && v.id in c.disc
    requires s1 == s.(parent := s.parent[v.id := u.id]) && Keeps(s1, c, v) && Keeps(c, c1, u)
    requires c.low[u.id] == s.low[u.id] && c1 == Returned(c, u, v, children + 1)
    requires NewLows(es, s1, c, v) && ExactLow(es, c, v.id)
    ensures ScanLowered(s, c1, u, [v])
  {
    assert c1.parent == c.parent && c1.disc == c.disc;
    assert !Skips(c1.parent, u, v) by {
      if u.id in s.parent {
        assert TreeEdge(es, s, u.id);
      }
    }
    OnlyNewChild(es, s, s1, c, u, v);
  }

  /** The return to `u` after the call on `v` keeps the exact low links of the vertices the call found. */
  lemma ReturnedNewLows(es: seq<Edge>, s: Dfs, s1: Dfs, c: Dfs, c1: Dfs, u: Vertex, v: Vertex, children: nat)
    requires Ready(es, s) && Ready(es, c) && u.id in s.disc && v.id !in s.disc && v.id in c.disc
    requires s1 == s.(parent := s.parent[v.id := u.id]) && Keeps(s1, c, v) && Keeps(c, c1, u)
    requires c1 == Returned(c, u, v, children + 1)
    requires NewLows(es, s1, c, v) && ExactLow(es, c, v.id)
    ensures NewLows(es, s, c1, u)
  {
    assert c1.disc == c.disc;
    forall k | k in c1.disc && k !in s.disc && k != u.id ensures ExactLow(es, c1, k) {
      assert !IsChild(c.parent, u.id, k) by {
        if u.id in s.parent {
          assert TreeEdge(es, s, u.id);
        }
      }
      LowKept(es, c, c1, u, k);
    }
  }

  lemma {:induction false} VisitLow(vs: seq<Vertex>, es: seq<Edge>, u: Vertex, s: Dfs)
    requires u.id in Ids(vs, es) && Pending(es, s, u)
    ensures var r := Visit(vs, es, u, s, false);
            NewLows(es, s, r, u) && ExactLow(es, r, u.id)
    decreases Ids(vs, es) - s.disc.Keys, 0, 0, 0
  {
    TargetIds(vs, es, u);
    forall w | w in Targets(es, u) ensures HasEdgeIn(es, u, w) {
      TargetsMembers(es, u, w);
    }
    var s1 := Enter(s, u);
    EnterShape(es, s, u);
    ScanShape(vs, es, u, Targets(es, u), s1, 0);
    ScanLow(vs, es, u, Targets(es, u), s1, 0);
    var r := Scan(vs, es, u, Targets(es, u), s1, 0, false);
    RootLow(es, s, s1, r, u);
  }

  /** At the end of the call on `u`, what the scan did to `low[u]` is its exact low link. */
  lemma RootLow(es: seq<Edge>, s: Dfs, s1: Dfs, r: Dfs, u: Vertex)
    requires Pending(es, s, u) && s1 == Enter(s, u) && Ready(es, s1) && Ready(es, r) && Keeps(s1, r, u)
    requires ScanLowered(s1, r, u, Targets(es, u)) && NewLows(es, s1, r, u)
    ensures NewLows(es, s, r, u) && ExactLow(es, r, u.id)
  {
    assert Vertex(u.id) == u;
    forall c | c in s1.parent ensures s1.parent[c] != u.id {
      if c != u.id {
        assert TreeEdge(es, s, c);
      }
    }
    forall w | Counted(es, r, u.id, w) ensures w in Targets(es, u) {
      TargetsMembers(es, u, w);
    }
    if exists w :: w in Targets(es, u) && !Skips(r.parent, u, w) && w.id in r.disc && r.low[u.id] == r.disc[w.id] {
      var w :| w in Targets(es, u) && !Skips(r.parent, u, w) && w.id in r.disc && r.low[u.id] == r.disc[w.id];
      TargetsMembers(es, u, w);
      assert Counted(es, r, u.id, w);
    }
  }

  lemma {:induction false} ScanLow(vs: seq<Vertex>, es: seq<Edge>, u: Vertex, ws: seq<Vertex>, s: Dfs, children: nat)
    requires u.id in s.disc && Ready(es, s)
    requires forall w :: w in ws ==> w.id in Ids(vs, es) && HasEdgeIn(es, u, w)
    ensures var r := Scan(vs, es, u, ws, s, children, false);
            ScanLowered(s, r, u, ws) && NewLows(es, s, r, u)
    decreases Ids(vs, es) - s.disc.Keys, 1, |ws|, 2
  {
    if ws != [] {
      if ws[0].id !in s.disc {
        ScanLowChild(vs, es, u, ws, s, children);
      } else {
        ScanLowBack(vs, es, u, ws, s, children);
      }
    }
  }

  lemma {:induction false} ScanLowChild(vs: seq<Vertex>, es: seq<Edge>, u: Vertex, ws: seq<Vertex>, s: Dfs, children: nat)
    requires u.id in s.disc && Ready(es, s) && ws != [] && ws[0].id !in s.disc
    requires forall w :: w in ws ==> w.id in Ids(vs, es) && HasEdgeIn(es, u, w)
    ensures var r := Scan(vs, es, u, ws, s, children, false);
            ScanLowered(s, r, u, ws) && NewLows(es, s, r, u)
    decreases Ids(vs, es) - s.disc.Keys, 1, |ws|, 1
  {
    var v := ws[0];
    var c := Returned(Visit(vs, es, v, s.(parent := s.parent[v.id := u.id]), false), u, v, children + 1);
    ChildShape(vs, es, u, ws, s, children);
    ChildLowered(vs, es, u, ws, s, children);
    ScanShape(vs, es, u, ws[1..], c, children + 1);
    ScanLow(vs, es, u, ws[1..], c, children + 1);
    var r := Scan(vs, es, u, ws[1..], c, children + 1, false);
    assert Scan(vs, es, u, ws, s, children, false) == r;
    LoweredTrans(es, s, c, r, u, ws);
    NewLowsTrans(es, s, c, r, u);
  }

  lemma {:induction false} ScanLowBack(vs: seq<Vertex>, es: seq<Edge>, u: Vertex, ws: seq<Vertex>, s: Dfs, children: nat)
    requires u.id in s.disc && Ready(es, s) && ws != [] && ws[0].id in s.disc
    requires forall w :: w in ws ==> w.id in Ids(vs, es) && HasEdgeIn(es, u, w)
    ensures var r := Scan(vs, es, u, ws, s, children, false);
            ScanLowered(s, r, u, ws) && NewLows(es, s, r, u)
    decreases Ids(vs, es) - s.disc.Keys, 1, |ws|, 1
  {
    var v := ws[0];
    assert s.(parent := Looked(s.parent, u, false)) == s;
    var s2 := if Skips(s.parent, u, v) then s else Back(s, u, v);
    if !Skips(s.parent, u, v) {
      BackShape(es, s, u, v);
    } else {
      KeepsSelf(s, u);
    }
    BackLowered(es, s, u, v);
    ScanShape(vs, es, u, ws[1..], s2, children);
    ScanLow(vs, es, u, ws[1..], s2, children);
    var r := Scan(vs, es, u, ws[1..], s2, children, false);
    assert Scan(vs, es, u, ws, s, children, false) == r;
    LoweredTrans(es, s, s2, r, u, ws);
    NewLowsTrans(es, s, s2, r, u);
  }

  /** A state keeps itself. */
  lemma KeepsSelf(s: Dfs, u: Vertex)
    ensures Keeps(s, s, u)
  {
  }

  /** Every discovered vertex has its exact low link. */
  ghost predicate AllExact(es: seq<Edge>, s: Dfs) {
    forall k :: k in s.disc ==> ExactLow(es, s, k)
  }

  lemma {:induction false} SweepLows(vs: seq<Vertex>, es: seq<Edge>, ws: seq<Vertex>, s: Dfs)
    requires forall w :: w in ws ==> w in vs
    requires Ready(es, s) && AllExact(es, s)
    ensures var r := Sweep(vs, es, ws, s, false);
            Ready(es, r) && AllExact(es, r)
    decreases |ws|
  {
    if ws != [] {
      var u := ws[0];
      if u.id !in s.disc {
        assert u.id in Ids(vs, es);
        assert u.id !in s.parent;
        VisitShape(vs, es, u, s);
        VisitLow(vs, es, u, s);
        var r := Visit(vs, es, u, s, false);
        forall k | k in r.disc ensures ExactLow(es, r, k) {
          if k in s.disc {
            LowKept(es, s, r, u, k);
          }
        }
        SweepLows(vs, es, ws[1..], r);
      } else {
        SweepLows(vs, es, ws[1..], s);
      }
    }
  }

  /** After a whole search every discovered vertex has its exact low link. */
  lemma SearchLows(vs: seq<Vertex>, es: seq<Edge>, t: int)
    ensures AllExact(es, Search(vs, es, t))
  {
    SweepLows(vs, es, vs, Start(t));
  }
}
