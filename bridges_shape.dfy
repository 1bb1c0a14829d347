// The shape of the low-link search (include/algorithms/bfs_dfs/BridgesAndArticulationPoints.h:79-150):
// the clock, the low links and the parent links, and what each step leaves unchanged.

module LowLinkShape {
  import opened GraphTypes
  import opened GraphBase
  import opened LowLinkSearch

  /** `a` is a prefix of `b`: a record only grows at its end. */
  ghost predicate Prefix<T>(a: seq<T>, b: seq<T>) {
    |a| <= |b| && b[..|a|] == a
  }

  /** What `b` appended to `a`. */
  function Added<T>(a: seq<T>, b: seq<T>): seq<T> {
    if |a| <= |b| then b[|a|..] else []
  }

  lemma AddedSplit<T>(a: seq<T>, b: seq<T>, c: seq<T>)
    requires Prefix(a, b) && Prefix(b, c)
    ensures Prefix(a, c)
    ensures forall x :: x in Added(a, c) <==> x in Added(a, b) || x in Added(b, c)
  {
    PrefixTrans(a, b, c);
    assert Added(a, c) == Added(a, b) + Added(b, c) by {
      assert c == c[..|b|] + c[|b|..];
    }
  }

  /** Discovery times are at most the clock and no two vertices share one. */
  ghost predicate Clocked(s: Dfs) {
    (forall k :: k in s.disc ==> s.disc[k] <= s.time) &&
    (forall j, k :: j in s.disc && k in s.disc && j != k ==> s.disc[j] != s.disc[k])
  }

  /** `parent[k]` names a vertex discovered before `k` with an edge to `k`: a tree edge. */
  ghost predicate TreeEdge(es: seq<Edge>, s: Dfs, k: int)
    requires k in s.parent
  {
    k in s.disc && s.parent[k] in s.disc && s.disc[s.parent[k]] < s.disc[k] &&
    HasEdgeIn(es, Vertex(s.parent[k]), Vertex(k))
  }

  /** The invariant between two steps of the search. */
  ghost predicate Ready(es: seq<Edge>, s: Dfs) {
    s.low.Keys == s.disc.Keys && Clocked(s) &&
    (forall k :: k in s.low ==> s.low[k] <= s.disc[k]) &&
    (forall k :: k in s.parent ==> TreeEdge(es, s, k))
  }

  /** The state handed to a recursive call on `u`: ready, except that `u` may already have a parent. */
  ghost predicate Pending(es: seq<Edge>, s: Dfs, u: Vertex) {
    s.low.Keys == s.disc.Keys && Clocked(s) && u.id !in s.disc &&
    (forall k :: k in s.low ==> s.low[k] <= s.disc[k]) &&
    (forall k :: k in s.parent && k != u.id ==> TreeEdge(es, s, k)) &&
    (u.id in s.parent ==> s.parent[u.id] in s.disc && HasEdgeIn(es, Vertex(s.parent[u.id]), u))
  }

  /**
   * What a search step from `s` to `r` on behalf of `u` leaves alone: every discovered vertex
   * keeps its time, every low link other than `u`'s and every parent link stays, a new parent
   * link leads from a new vertex to `u` or to another new vertex, records only grow, and the
   * clock advances by exactly the number of vertices discovered, each of which
   * gets a time after the old clock.
   */
  ghost predicate Keeps(s: Dfs, r: Dfs, u: Vertex) {
    KeepsTimes(s, r) && KeepsLinks(s, r, u) && Prefix(s.bridges, r.bridges) && Prefix(s.points, r.points)
  }

  /** The clock part of `Keeps`. */
  ghost predicate KeepsTimes(s: Dfs, r: Dfs) {
    s.disc.Keys <= r.disc.Keys && s.time <= r.time &&
    |r.disc.Keys| - |s.disc.Keys| == r.time - s.time &&
    (forall k :: k in s.disc ==> r.disc[k] == s.disc[k]) &&
    (forall k :: k in r.disc && k !in s.disc ==> s.time < r.disc[k] <= r.time)
  }

  /** The low-link and parent part of `Keeps`. */
  ghost predicate KeepsLinks(s: Dfs, r: Dfs, u: Vertex) {
    s.parent.Keys <= r.parent.Keys &&
    (forall k :: k in s.low && k != u.id ==> k in r.low && r.low[k] == s.low[k]) &&
    (forall k :: k in s.parent ==> r.parent[k] == s.parent[k]) &&
    (forall k :: k in r.parent && k !in s.parent ==>
       k in r.disc && k !in s.disc && k != u.id && (r.parent[k] == u.id || r.parent[k] !in s.disc))
  }

  /** Every vertex discovered from `s` to `r`, other than `u`, has a parent. */
  ghost predicate Adopted(s: Dfs, r: Dfs, u: Vertex) {
    forall k :: k in r.disc && k !in s.disc && k != u.id ==> k in r.parent
  }

  lemma CardAdd(a: set<int>, x: int)
    requires x !in a
    ensures |a + {x}| == |a| + 1
  {
  }

  lemma EnterShape(es: seq<Edge>, s: Dfs, u: Vertex)
    requires Pending(es, s, u)
    ensures Ready(es, Enter(s, u)) && Keeps(s, Enter(s, u), u)
  {
    EnterReady(es, s, u);
    EnterKeeps(es, s, u);
  }

  lemma EnterReady(es: seq<Edge>, s: Dfs, u: Vertex)
    requires Pending(es, s, u)
    ensures Ready(es, Enter(s, u))
  {
    var r := Enter(s, u);
    assert Clocked(r) by {
      forall j, k | j in r.disc && k in r.disc && j != k ensures r.disc[j] != r.disc[k] {
        if j == u.id {
          assert r.disc[k] == s.disc[k] <= s.time;
        } else if k == u.id {
          assert r.disc[j] == s.disc[j] <= s.time;
        }
      }
    }
    forall k | k in r.parent ensures TreeEdge(es, r, k) {
      if k != u.id {
        assert TreeEdge(es, s, k);
        assert s.parent[k] != u.id;
      } else {
        assert s.disc[s.parent[k]] <= s.time;
      }
    }
  }

  lemma EnterKeeps(es: seq<Edge>, s: Dfs, u: Vertex)
    requires Pending(es, s, u)
    ensures Keeps(s, Enter(s, u), u)
  {
    CardAdd(s.disc.Keys, u.id);
  }

  lemma KeepsTrans(s: Dfs, m: Dfs, r: Dfs, u: Vertex)
    requires Keeps(s, m, u) && Keeps(m, r, u)
    ensures Keeps(s, r, u)
  {
    TimesTrans(s, m, r);
    LinksTrans(s, m, r, u);
    PrefixTrans(s.bridges, m.bridges, r.bridges);
    PrefixTrans(s.points, m.points, r.points);
  }

  lemma TimesTrans(s: Dfs, m: Dfs, r: Dfs)
    requires KeepsTimes(s, m) && KeepsTimes(m, r)
    ensures KeepsTimes(s, r)
  {
  }

  lemma LinksTrans(s: Dfs, m: Dfs, r: Dfs, u: Vertex)
    requires KeepsTimes(s, m) && KeepsTimes(m, r) && KeepsLinks(s, m, u) && KeepsLinks(m, r, u)
    ensures KeepsLinks(s, r, u)
  {
  }

  lemma PrefixTrans<T>(a: seq<T>, b: seq<T>, c: seq<T>)
    requires Prefix(a, b) && Prefix(b, c)
    ensures Prefix(a, c)
  {
    assert c[..|a|] == c[..|b|][..|a|];
  }

  /** A recursive call on the child `v` of `u` keeps everything of `u`, its low link included. */
  lemma KeepsChild(s: Dfs, c: Dfs, u: Vertex, v: Vertex)
    requires u.id in s.disc && u.id in s.low && v.id !in s.disc && s.low.Keys == s.disc.Keys
    requires v.id !in s.parent
    requires Keeps(s.(parent := s.parent[v.id := u.id]), c, v) && v.id in c.disc
    ensures Keeps(s, c, u) && c.low[u.id] == s.low[u.id]
  {
  }

  lemma ReturnedShape(es: seq<Edge>, c: Dfs, u: Vertex, v: Vertex, children: nat)
    requires Ready(es, c) && u.id in c.disc && v.id in c.disc
    ensures Ready(es, Returned(c, u, v, children)) && Keeps(c, Returned(c, u, v, children), u)
    ensures Returned(c, u, v, children).low[u.id] <= c.low[u.id]
  {
  }

  lemma BackShape(es: seq<Edge>, s: Dfs, u: Vertex, v: Vertex)
    requires Ready(es, s) && u.id in s.disc && v.id in s.disc
    ensures Ready(es, Back(s, u, v)) && Keeps(s, Back(s, u, v), u) && Back(s, u, v).low[u.id] <= s.low[u.id]
  {
  }

  lemma AdoptedTrans(s: Dfs, m: Dfs, r: Dfs, u: Vertex)
    requires Adopted(s, m, u) && Adopted(m, r, u) && m.parent.Keys <= r.parent.Keys && m.disc.Keys <= r.disc.Keys
    ensures Adopted(s, r, u)
  {
  }

  lemma {:induction false} VisitShape(vs: seq<Vertex>, es: seq<Edge>, u: Vertex, s: Dfs)
    requires u.id in Ids(vs, es) && Pending(es, s, u)
    ensures var r := Visit(vs, es, u, s, false);
            Ready(es, r) && u.id in r.disc && Keeps(s, r, u) && Adopted(s, r, u)
    decreases Ids(vs, es) - s.disc.Keys, 0, 0, 0
  {
    TargetIds(vs, es, u);
    forall w | w in Targets(es, u) ensures HasEdgeIn(es, u, w) {
      TargetsMembers(es, u, w);
    }
    var s1 := Enter(s, u);
    EnterShape(es, s, u);
    ScanShape(vs, es, u, Targets(es, u), s1, 0);
    KeepsTrans(s, s1, Scan(vs, es, u, Targets(es, u), s1, 0, false), u);
  }

  /** The first neighbour of `u` is undiscovered: the call on it and the step back. */
  lemma {:induction false} ChildShape(vs: seq<Vertex>, es: seq<Edge>, u: Vertex, ws: seq<Vertex>, s: Dfs, children: nat)
    requires u.id in s.disc && Ready(es, s) && ws != [] && ws[0].id !in s.disc
    requires forall w :: w in ws ==> w.id in Ids(vs, es) && HasEdgeIn(es, u, w)
    ensures var v := ws[0];
            var c := Returned(Visit(vs, es, v, s.(parent := s.parent[v.id := u.id]), false), u, v, children + 1);
            Ready(es, c) && u.id in c.disc && Keeps(s, c, u) && Adopted(s, c, u) && c.low[u.id] <= s.low[u.id]
    decreases Ids(vs, es) - s.disc.Keys, 1, |ws|, 0
  {
    var v := ws[0];
    var s1 := s.(parent := s.parent[v.id := u.id]);
    VisitShape(vs, es, v, s1);
    var c := Visit(vs, es, v, s1, false);
    KeepsChild(s, c, u, v);
    ReturnedShape(es, c, u, v, children + 1);
    KeepsTrans(s, c, Returned(c, u, v, children + 1), u);
  }

  lemma {:induction false} ScanShape(vs: seq<Vertex>, es: seq<Edge>, u: Vertex, ws: seq<Vertex>, s: Dfs, children: nat)
    requires u.id in s.disc && Ready(es, s)
    requires forall w :: w in ws ==> w.id in Ids(vs, es) && HasEdgeIn(es, u, w)
    ensures var r := Scan(vs, es, u, ws, s, children, false);
            Ready(es, r) && Keeps(s, r, u) && Adopted(s, r, u) && r.low[u.id] <= s.low[u.id]
    decreases Ids(vs, es) - s.disc.Keys, 1, |ws|, 2
  {
    if ws != [] {
      if ws[0].id !in s.disc {
        ScanChild(vs, es, u, ws, s, children);
      } else {
        ScanBack(vs, es, u, ws, s, children);
      }
    }
  }

  lemma {:induction false} ScanChild(vs: seq<Vertex>, es: seq<Edge>, u: Vertex, ws: seq<Vertex>, s: Dfs, children: nat)
    requires u.id in s.disc && Ready(es, s) && ws != [] && ws[0].id !in s.disc
    requires forall w :: w in ws ==> w.id in Ids(vs, es) && HasEdgeIn(es, u, w)
    ensures var r := Scan(vs, es, u, ws, s, children, false);
            Ready(es, r) && Keeps(s, r, u) && Adopted(s, r, u) && r.low[u.id] <= s.low[u.id]
    decreases Ids(vs, es) - s.disc.Keys, 1, |ws|, 1
  {
    var v := ws[0];
    var c := Returned(Visit(vs, es, v, s.(parent := s.parent[v.id := u.id]), false), u, v, children + 1);
    ChildShape(vs, es, u, ws, s, children);
    ScanShape(vs, es, u, ws[1..], c, children + 1);
    var r := Scan(vs, es, u, ws[1..], c, children + 1, false);
    assert Scan(vs, es, u, ws, s, children, false) == r;
    KeepsTrans(s, c, r, u);
    AdoptedTrans(s, c, r, u);
  }

  lemma {:induction false} ScanBack(vs: seq<Vertex>, es: seq<Edge>, u: Vertex, ws: seq<Vertex>, s: Dfs, children: nat)
    requires u.id in s.disc && Ready(es, s) && ws != [] && ws[0].id in s.disc
    requires forall w :: w in ws ==> w.id in Ids(vs, es) && HasEdgeIn(es, u, w)
    ensures var r := Scan(vs, es, u, ws, s, children, false);
            Ready(es, r) && Keeps(s, r, u) && Adopted(s, r, u) && r.low[u.id] <= s.low[u.id]
    decreases Ids(vs, es) - s.disc.Keys, 1, |ws|, 1
  {
    var v := ws[0];
    assert s.(parent := Looked(s.parent, u, false)) == s;
    if Skips(s.parent, u, v) {
      ScanShape(vs, es, u, ws[1..], s, children);
    } else {
      var s1 := Back(s, u, v);
      BackShape(es, s, u, v);
      ScanShape(vs, es, u, ws[1..], s1, children);
      var r := Scan(vs, es, u, ws[1..], s1, children, false);
      assert Scan(vs, es, u, ws, s, children, false) == r;
      KeepsTrans(s, s1, r, u);
      AdoptedTrans(s, s1, r, u);
    }
  }
}
