// The two adjacency-list samples of tests/test_bridges_articulation.cpp, run through the search
// of `LowLinkSearch` vertex by vertex. Each graph lists its vertices and its edges in the order the
// test adds them; every undirected edge is added as two directed ones. The test calls
// `findBridges` and then `findArticulationPoints` on one object, and the clock is never reset, so
// the second search starts where the first one stopped: every visit is stated from a clock `t`.

module LowLinkSamples {
  import opened GraphTypes
  import opened GraphBase
  import opened LowLinkSearch

  /** `Edge(Vertex(s), Vertex(t))`: capacity and flow 0. */
  function E(s: int, t: int): Edge {
    Edge(Vertex(s), Vertex(t), 0, 0)
  }

  /** The bridge record holds `EdgeType(u, v)`: that is `E`. */
  lemma PlainEdge(s: int, t: int)
    ensures NewPlainEdge(Vertex(s), Vertex(t)) == E(s, t)
  {
  }

  // ----- Stepping through the search -----

  /** The targets of the edges from index `i` on whose source is `v`, front to back. */
  function TargetsFrom(es: seq<Edge>, v: Vertex, i: nat): seq<Vertex>
    decreases |es| - i
  {
    if i >= |es| then [] else (if es[i].source == v then [es[i].target] else []) + TargetsFrom(es, v, i + 1)
  }

  lemma {:induction false} TargetsFromSplit(es: seq<Edge>, v: Vertex, i: nat)
    requires i <= |es|
    ensures Targets(es, v) == Targets(es[..i], v) + TargetsFrom(es, v, i)
    decreases |es| - i
  {
    if i == |es| {
      assert es[..i] == es;
    } else {
      TargetsFromSplit(es, v, i + 1);
      assert es[..i + 1][..i] == es[..i];
    }
  }

  /** The neighbours of `v` read front to back. */
  lemma TargetsForward(es: seq<Edge>, v: Vertex)
    ensures Targets(es, v) == TargetsFrom(es, v, 0)
  {
    TargetsFromSplit(es, v, 0);
  }

  /** The neighbour loop of a visit ends with nothing left to scan. */
  lemma ScanEnd(vs: seq<Vertex>, es: seq<Edge>, u: Vertex, s: Dfs, children: nat, inserting: bool)
    requires u.id in s.disc && u.id in s.low
    ensures Scan(vs, es, u, [], s, children, inserting) == s
  {
  }

  /** An already discovered neighbour is skipped as the parent or folded in as a back edge. */
  lemma ScanSeen(vs: seq<Vertex>, es: seq<Edge>, u: Vertex, ws: seq<Vertex>, s: Dfs, children: nat, inserting: bool)
    requires u.id in s.disc && u.id in s.low && ws != [] && ws[0].id in s.disc
    requires forall w :: w in ws ==> w.id in Ids(vs, es)
    ensures var s1 := s.(parent := Looked(s.parent, u, inserting));
            Scan(vs, es, u, ws, s, children, inserting)
            == Scan(vs, es, u, ws[1..], if Skips(s1.parent, u, ws[0]) then s1 else Back(s1, u, ws[0]), children, inserting)
  {
  }

  /** An undiscovered neighbour becomes a child: it is visited, then folded in. */
  lemma ScanNew(vs: seq<Vertex>, es: seq<Edge>, u: Vertex, ws: seq<Vertex>, s: Dfs, children: nat, inserting: bool)
    requires u.id in s.disc && u.id in s.low && ws != [] && ws[0].id !in s.disc
    requires forall w :: w in ws ==> w.id in Ids(vs, es)
    ensures var c := Visit(vs, es, ws[0], s.(parent := s.parent[ws[0].id := u.id]), inserting);
            Scan(vs, es, u, ws, s, children, inserting)
            == Scan(vs, es, u, ws[1..], Returned(c, u, ws[0], children + 1), children + 1, inserting)
  {
  }

  /** The same step with the folded-in state spelled out: the child's low value, whether the edge
      to it is a bridge, and whether `u` is recorded as a root or a non-root cut vertex. */
  lemma ScanChild(vs: seq<Vertex>, es: seq<Edge>, u: Vertex, v: Vertex, ws: seq<Vertex>, s: Dfs, children: nat,
                  c0: Dfs, c: Dfs, lowU: int, bridge: bool, root: bool, cut: bool)
    requires u.id in s.disc && u.id in s.low && ws != [] && ws[0] == v && v.id !in s.disc && u != v
    requires forall w :: w in ws ==> w.id in Ids(vs, es)
    requires c0 == s.(parent := s.parent[v.id := u.id]) && Visit(vs, es, v, c0, false) == c
    requires u.id in c.disc && u.id in c.low && v.id in c.low
    requires lowU == Min(c.low[u.id], c.low[v.id])
    requires bridge == (c.low[v.id] > c.disc[u.id])
    requires root == (u.id !in c.parent && children + 1 > 1)
    requires cut == (u.id in c.parent && c.low[v.id] >= c.disc[u.id])
    ensures Scan(vs, es, u, ws, s, children, false)
            == Scan(vs, es, u, ws[1..], c.(low := c.low[u.id := lowU],
                                           bridges := c.bridges + (if bridge then [E(u.id, v.id)] else []),
                                           points := c.points + (if root then [u.id] else []) + (if cut then [u.id] else [])),
                    children + 1, false)
  {
    ScanNew(vs, es, u, ws, s, children, false);
    PlainEdge(u.id, v.id);
    assert Returned(c, u, v, children + 1) == c.(low := c.low[u.id := lowU],
                                                 bridges := c.bridges + (if bridge then [E(u.id, v.id)] else []),
                                                 points := c.points + (if root then [u.id] else []) + (if cut then [u.id] else []));
  }

  /** Folding a root's first child in: the root keeps its low value and records no point. */
  lemma RootReturned(c: Dfs, u: Vertex, v: Vertex, bridge: bool)
    requires u.id in c.disc && u.id in c.low && v.id in c.low && u.id !in c.parent && u != v
    requires c.low[u.id] <= c.low[v.id]
    requires bridge == (c.low[v.id] > c.disc[u.id])
    ensures Returned(c, u, v, 1) == if bridge then c.(bridges := c.bridges + [E(u.id, v.id)]) else c
  {
    PlainEdge(u.id, v.id);
    var low := c.low[u.id := Min(c.low[u.id], c.low[v.id])];
    assert low == c.low by {
      assert Min(c.low[u.id], c.low[v.id]) == c.low[u.id];
    }
    assert c.points + [] + [] == c.points;
  }

  /** The outer loop starts a search from the first vertex when it is undiscovered. */
  lemma SweepNew(vs: seq<Vertex>, es: seq<Edge>, ws: seq<Vertex>, s: Dfs, inserting: bool)
    requires ws != [] && ws[0].id !in s.disc && (forall w :: w in ws ==> w in vs)
    ensures Sweep(vs, es, ws, s, inserting) == Sweep(vs, es, ws[1..], Visit(vs, es, ws[0], s, inserting), inserting)
  {
  }

  /** Once every vertex still to try is discovered, the outer loop changes nothing. */
  lemma {:induction false} SweepDone(vs: seq<Vertex>, es: seq<Edge>, ws: seq<Vertex>, s: Dfs, inserting: bool)
    requires forall w :: w in ws ==> w in vs && w.id in s.disc
    ensures Sweep(vs, es, ws, s, inserting) == s
    decreases |ws|
  {
    if ws != [] {
      assert ws[0] in ws;
      SweepDone(vs, es, ws[1..], s, inserting);
    }
  }

  // ----- tests/test_bridges_articulation.cpp:10-52, six vertices -----

  function Six(): seq<Vertex> {
    [Vertex(1), Vertex(2), Vertex(3), Vertex(4), Vertex(5), Vertex(6)]
  }

  function SixEdges(): seq<Edge> {
    [E(1, 2), E(2, 3), E(3, 4), E(3, 6), E(2, 5), E(5, 6), E(2, 1), E(3, 2), E(4, 3), E(6, 3), E(5, 2), E(6, 5)]
  }

  /** The ids of the six-vertex sample. */
  ghost predicate SixIds(vs: seq<Vertex>, es: seq<Edge>) {
    Ids(vs, es) == {1, 2, 3, 4, 5, 6}
  }

  /** Its ids and the neighbours of each vertex, in edge order. */
  ghost predicate SixShape(vs: seq<Vertex>, es: seq<Edge>) {
    SixIds(vs, es) &&
    Targets(es, Vertex(1)) == [Vertex(2)] &&
    Targets(es, Vertex(2)) == [Vertex(3), Vertex(5), Vertex(1)] &&
    Targets(es, Vertex(3)) == [Vertex(4), Vertex(6), Vertex(2)] &&
    Targets(es, Vertex(4)) == [Vertex(3)] &&
    Targets(es, Vertex(5)) == [Vertex(6), Vertex(2)] &&
    Targets(es, Vertex(6)) == [Vertex(3), Vertex(5)]
  }

  lemma SixHasShape()
    ensures SixShape(Six(), SixEdges())
  {
    SixTargetsLow();
    SixTargetsHigh();
  }

  /** The neighbour lists, read off the edge list front to back. */
  lemma SixTargetsLow()
    ensures Targets(SixEdges(), Vertex(1)) == [Vertex(2)]
    ensures Targets(SixEdges(), Vertex(2)) == [Vertex(3), Vertex(5), Vertex(1)]
    ensures Targets(SixEdges(), Vertex(3)) == [Vertex(4), Vertex(6), Vertex(2)]
  {
    TargetsForward(SixEdges(), Vertex(1));
    TargetsForward(SixEdges(), Vertex(2));
    TargetsForward(SixEdges(), Vertex(3));
  }

  lemma SixTargetsHigh()
    ensures Targets(SixEdges(), Vertex(4)) == [Vertex(3)]
    ensures Targets(SixEdges(), Vertex(5)) == [Vertex(6), Vertex(2)]
    ensures Targets(SixEdges(), Vertex(6)) == [Vertex(3), Vertex(5)]
  {
    TargetsForward(SixEdges(), Vertex(4));
    TargetsForward(SixEdges(), Vertex(5));
    TargetsForward(SixEdges(), Vertex(6));
  }

  /** At vertex 4, neighbour 3 is the parent, skipped. */
  lemma SixScan4_1(vs: seq<Vertex>, es: seq<Edge>, t: int)
    requires SixIds(vs, es)
    ensures Scan(vs, es, Vertex(4), [Vertex(3)], Dfs(map[1 := t + 1, 2 := t + 2, 3 := t + 3, 4 := t + 4], map[1 := t + 1, 2 := t + 2, 3 := t + 3, 4 := t + 4], map[2 := 1, 3 := 2, 4 := 3], t + 4, [], []), 0, false)
         == Scan(vs, es, Vertex(4), [], Dfs(map[1 := t + 1, 2 := t + 2, 3 := t + 3, 4 := t + 4], map[1 := t + 1, 2 := t + 2, 3 := t + 3, 4 := t + 4], map[2 := 1, 3 := 2, 4 := 3], t + 4, [], []), 0, false)
  {
    ScanSeen(vs, es, Vertex(4), [Vertex(3)], Dfs(map[1 := t + 1, 2 := t + 2, 3 := t + 3, 4 := t + 4], map[1 := t + 1, 2 := t + 2, 3 := t + 3, 4 := t + 4], map[2 := 1, 3 := 2, 4 := 3], t + 4, [], []), 0, false);
  }

  /** The visit of vertex 4 from 3. */
  lemma SixVisit4(vs: seq<Vertex>, es: seq<Edge>, t: int)
    requires SixShape(vs, es)
    ensures Visit(vs, es, Vertex(4), Dfs(map[1 := t + 1, 2 := t + 2, 3 := t + 3], map[1 := t + 1, 2 := t + 2, 3 := t + 3], map[2 := 1, 3 := 2, 4 := 3], t + 3, [], []), false)
         == Dfs(map[1 := t + 1, 2 := t + 2, 3 := t + 3, 4 := t + 4], map[1 := t + 1, 2 := t + 2, 3 := t + 3, 4 := t + 4], map[2 := 1, 3 := 2, 4 := 3], t + 4, [], [])
  {
    VisitStart(vs, es, Vertex(4), Dfs(map[1 := t + 1, 2 := t + 2, 3 := t + 3], map[1 := t + 1, 2 := t + 2, 3 := t + 3], map[2 := 1, 3 := 2, 4 := 3], t + 3, [], []), false);
    WholeSlice(Targets(es, Vertex(4)));
    SixScan4_1(vs, es, t);
    ScanEnd(vs, es, Vertex(4), Dfs(map[1 := t + 1, 2 := t + 2, 3 := t + 3, 4 := t + 4], map[1 := t + 1, 2 := t + 2, 3 := t + 3, 4 := t + 4], map[2 := 1, 3 := 2, 4 := 3], t + 4, [], []), 0, false);
  }

  /** At vertex 5, neighbour 6 is the parent, skipped. */
  lemma SixScan5_1(vs: seq<Vertex>, es: seq<Edge>, t: int)
    requires SixIds(vs, es)
    ensures Scan(vs, es, Vertex(5), [Vertex(6), Vertex(2)], Dfs(map[1 := t + 1, 2 := t + 2, 3 := t + 3, 4 := t + 4, 6 := t + 5, 5 := t + 6], map[1 := t + 1, 2 := t + 2, 3 := t + 3, 4 := t + 4, 6 := t + 5, 5 := t + 6], map[2 := 1, 3 := 2, 4 := 3, 6 := 3, 5 := 6], t + 6, [E(3, 4)], [3]), 0, false)
         == Scan(vs, es, Vertex(5), [Vertex(2)], Dfs(map[1 := t + 1, 2 := t + 2, 3 := t + 3, 4 := t + 4, 6 := t + 5, 5 := t + 6], map[1 := t + 1, 2 := t + 2, 3 := t + 3, 4 := t + 4, 6 := t + 5, 5 := t + 6], map[2 := 1, 3 := 2, 4 := 3, 6 := 3, 5 := 6], t + 6, [E(3, 4)], [3]), 0, false)
  {
    assert [Vertex(6), Vertex(2)][1..] == [Vertex(2)];
    ScanSeen(vs, es, Vertex(5), [Vertex(6), Vertex(2)], Dfs(map[1 := t + 1, 2 := t + 2, 3 := t + 3, 4 := t + 4, 6 := t + 5, 5 := t + 6], map[1 := t + 1, 2 := t + 2, 3 := t + 3, 4 := t + 4, 6 := t + 5, 5 := t + 6], map[2 := 1, 3 := 2, 4 := 3, 6 := 3, 5 := 6], t + 6, [E(3, 4)], [3]), 0, false);
  }

  /** At vertex 5, neighbour 2 is already discovered: a back edge. */
  lemma SixScan5_2(vs: seq<Vertex>, es: seq<Edge>, t: int)
    requires SixIds(vs, es)
    ensures Scan(vs, es, Vertex(5), [Vertex(2)], Dfs(map[1 := t + 1, 2 := t + 2, 3 := t + 3, 4 := t + 4, 6 := t + 5, 5 := t + 6], map[1 := t + 1, 2 := t + 2, 3 := t + 3, 4 := t + 4, 6 := t + 5, 5 := t + 6], map[2 := 1, 3 := 2, 4 := 3, 6 := 3, 5 := 6], t + 6, [E(3, 4)], [3]), 0, false)
         == Scan(vs, es, Vertex(5), [], Dfs(map[1 := t + 1, 2 := t + 2, 3 := t + 3, 4 := t + 4, 6 := t + 5, 5 := t + 6], map[1 := t + 1, 2 := t + 2, 3 := t + 3, 4 := t + 4, 6 := t + 5, 5 := t + 2], map[2 := 1, 3 := 2, 4 := 3, 6 := 3, 5 := 6], t + 6, [E(3, 4)], [3]), 0, false)
  {
    ScanSeen(vs, es, Vertex(5), [Vertex(2)], Dfs(map[1 := t + 1, 2 := t + 2, 3 := t + 3, 4 := t + 4, 6 := t + 5, 5 := t + 6], map[1 := t + 1, 2 := t + 2, 3 := t + 3, 4 := t + 4, 6 := t + 5, 5 := t + 6], map[2 := 1, 3 := 2, 4 := 3, 6 := 3, 5 := 6], t + 6, [E(3, 4)], [3]), 0, false);
  }

  /** The visit of vertex 5 from 6. */
  lemma SixVisit5(vs: seq<Vertex>, es: seq<Edge>, t: int)
    requires SixShape(vs, es)
    ensures Visit(vs, es, Vertex(5), Dfs(map[1 := t + 1, 2 := t + 2, 3 := t + 3, 4 := t + 4, 6 := t + 5], map[1 := t + 1, 2 := t + 2, 3 := t + 3, 4 := t + 4, 6 := t + 5], map[2 := 1, 3 := 2, 4 := 3, 6 := 3, 5 := 6], t + 5, [E(3, 4)], [3]), false)
         == Dfs(map[1 := t + 1, 2 := t + 2, 3 := t + 3, 4 := t + 4, 6 := t + 5, 5 := t + 6], map[1 := t + 1, 2 := t + 2, 3 := t + 3, 4 := t + 4, 6 := t + 5, 5 := t + 2], map[2 := 1, 3 := 2, 4 := 3, 6 := 3, 5 := 6], t + 6, [E(3, 4)], [3])
  {
    VisitStart(vs, es, Vertex(5), Dfs(map[1 := t + 1, 2 := t + 2, 3 := t + 3, 4 := t + 4, 6 := t + 5], map[1 := t + 1, 2 := t + 2, 3 := t + 3, 4 := t + 4, 6 := t + 5], map[2 := 1, 3 := 2, 4 := 3, 6 := 3, 5 := 6], t + 5, [E(3, 4)], [3]), false);
    WholeSlice(Targets(es, Vertex(5)));
    SixScan5_1(vs, es, t);
    SixScan5_2(vs, es, t);
    ScanEnd(vs, es, Vertex(5), Dfs(map[1 := t + 1, 2 := t + 2, 3 := t + 3, 4 := t + 4, 6 := t + 5, 5 := t + 6], map[1 := t + 1, 2 := t + 2, 3 := t + 3, 4 := t + 4, 6 := t + 5, 5 := t + 2], map[2 := 1, 3 := 2, 4 := 3, 6 := 3, 5 := 6], t + 6, [E(3, 4)], [3]), 0, false);
  }

  /** At vertex 6, neighbour 3 is the parent, skipped. */
  lemma SixScan6_1(vs: seq<Vertex>, es: seq<Edge>, t: int)
    requires SixIds(vs, es)
    ensures Scan(vs, es, Vertex(6), [Vertex(3), Vertex(5)], Dfs(map[1 := t + 1, 2 := t + 2, 3 := t + 3, 4 := t + 4, 6 := t + 5], map[1 := t + 1, 2 := t + 2, 3 := t + 3, 4 := t + 4, 6 := t + 5], map[2 := 1, 3 := 2, 4 := 3, 6 := 3], t + 5, [E(3, 4)], [3]), 0, false)
         == Scan(vs, es, Vertex(6), [Vertex(5)], Dfs(map[1 := t + 1, 2 := t + 2, 3 := t + 3, 4 := t + 4, 6 := t + 5], map[1 := t + 1, 2 := t + 2, 3 := t + 3, 4 := t + 4, 6 := t + 5], map[2 := 1, 3 := 2, 4 := 3, 6 := 3], t + 5, [E(3, 4)], [3]), 0, false)
  {
    assert [Vertex(3), Vertex(5)][1..] == [Vertex(5)];
    ScanSeen(vs, es, Vertex(6), [Vertex(3), Vertex(5)], Dfs(map[1 := t + 1, 2 := t + 2, 3 := t + 3, 4 := t + 4, 6 := t + 5], map[1 := t + 1, 2 := t + 2, 3 := t + 3, 4 := t + 4, 6 := t + 5], map[2 := 1, 3 := 2, 4 := 3, 6 := 3], t + 5, [E(3, 4)], [3]), 0, false);
  }

  /** At vertex 6, neighbour 5 is a new child. */
  lemma SixScan6_2(vs: seq<Vertex>, es: seq<Edge>, t: int)
    requires SixShape(vs, es)
    ensures Scan(vs, es, Vertex(6), [Vertex(5)], Dfs(map[1 := t + 1, 2 := t + 2, 3 := t + 3, 4 := t + 4, 6 := t + 5], map[1 := t + 1, 2 := t + 2, 3 := t + 3, 4 := t + 4, 6 := t + 5], map[2 := 1, 3 := 2, 4 := 3, 6 := 3], t + 5, [E(3, 4)], [3]), 0, false)
         == Scan(vs, es, Vertex(6), [], Dfs(map[1 := t + 1, 2 := t + 2, 3 := t + 3, 4 := t + 4, 6 := t + 5, 5 := t + 6], map[1 := t + 1, 2 := t + 2, 3 := t + 3, 4 := t + 4, 6 := t + 2, 5 := t + 2], map[2 := 1, 3 := 2, 4 := 3, 6 := 3, 5 := 6], t + 6, [E(3, 4)], [3]), 1, false)
  {
    var s := Dfs(map[1 := t + 1, 2 := t + 2, 3 := t + 3, 4 := t + 4, 6 := t + 5], map[1 := t + 1, 2 := t + 2, 3 := t + 3, 4 := t + 4, 6 := t + 5], map[2 := 1, 3 := 2, 4 := 3, 6 := 3], t + 5, [E(3, 4)], [3]);
    var c0 := Dfs(map[1 := t + 1, 2 := t + 2, 3 := t + 3, 4 := t + 4, 6 := t + 5], map[1 := t + 1, 2 := t + 2, 3 := t + 3, 4 := t + 4, 6 := t + 5], map[2 := 1, 3 := 2, 4 := 3, 6 := 3, 5 := 6], t + 5, [E(3, 4)], [3]);
    var c := Dfs(map[1 := t + 1, 2 := t + 2, 3 := t + 3, 4 := t + 4, 6 := t + 5, 5 := t + 6], map[1 := t + 1, 2 := t + 2, 3 := t + 3, 4 := t + 4, 6 := t + 5, 5 := t + 2], map[2 := 1, 3 := 2, 4 := 3, 6 := 3, 5 := 6], t + 6, [E(3, 4)], [3]);
    var u, v, ws, children, lowU, bridge, root, cut := Vertex(6), Vertex(5), [Vertex(5)], 0, t + 2, false, false, false;
    assert lowU == Min(c.low[u.id], c.low[v.id]);
    assert bridge == (c.low[v.id] > c.disc[u.id]);
    assert root == (u.id !in c.parent && children + 1 > 1);
    assert u.id in c.parent && cut == (c.low[v.id] >= c.disc[u.id]);
    assert c.(low := c.low[u.id := lowU], bridges := c.bridges + (if bridge then [E(u.id, v.id)] else []),
              points := c.points + (if root then [u.id] else []) + (if cut then [u.id] else []))
        == Dfs(map[1 := t + 1, 2 := t + 2, 3 := t + 3, 4 := t + 4, 6 := t + 5, 5 := t + 6], map[1 := t + 1, 2 := t + 2, 3 := t + 3, 4 := t + 4, 6 := t + 2, 5 := t + 2], map[2 := 1, 3 := 2, 4 := 3, 6 := 3, 5 := 6], t + 6, [E(3, 4)], [3]);
    assert ws[1..] == [];
    SixVisit5(vs, es, t);
    ScanChild(vs, es, u, v, ws, s, children, c0, c, lowU, bridge, root, cut);
  }

  /** The visit of vertex 6 from 3. */
  lemma SixVisit6(vs: seq<Vertex>, es: seq<Edge>, t: int)
    requires SixShape(vs, es)
    ensures Visit(vs, es, Vertex(6), Dfs(map[1 := t + 1, 2 := t + 2, 3 := t + 3, 4 := t + 4], map[1 := t + 1, 2 := t + 2, 3 := t + 3, 4 := t + 4], map[2 := 1, 3 := 2, 4 := 3, 6 := 3], t + 4, [E(3, 4)], [3]), false)
         == Dfs(map[1 := t + 1, 2 := t + 2, 3 := t + 3, 4 := t + 4, 6 := t + 5, 5 := t + 6], map[1 := t + 1, 2 := t + 2, 3 := t + 3, 4 := t + 4, 6 := t + 2, 5 := t + 2], map[2 := 1, 3 := 2, 4 := 3, 6 := 3, 5 := 6], t + 6, [E(3, 4)], [3])
  {
    VisitStart(vs, es, Vertex(6), Dfs(map[1 := t + 1, 2 := t + 2, 3 := t + 3, 4 := t + 4], map[1 := t + 1, 2 := t + 2, 3 := t + 3, 4 := t + 4], map[2 := 1, 3 := 2, 4 := 3, 6 := 3], t + 4, [E(3, 4)], [3]), false);
    WholeSlice(Targets(es, Vertex(6)));
    SixScan6_1(vs, es, t);
    SixScan6_2(vs, es, t);
    ScanEnd(vs, es, Vertex(6), Dfs(map[1 := t + 1, 2 := t + 2, 3 := t + 3, 4 := t + 4, 6 := t + 5, 5 := t + 6], map[1 := t + 1, 2 := t + 2, 3 := t + 3, 4 := t + 4, 6 := t + 2, 5 := t + 2], map[2 := 1, 3 := 2, 4 := 3, 6 := 3, 5 := 6], t + 6, [E(3, 4)], [3]), 1, false);
  }

  /** At vertex 3, neighbour 4 is a new child. */
  lemma SixScan3_1(vs: seq<Vertex>, es: seq<Edge>, t: int)
    requires SixShape(vs, es)
    ensures Scan(vs, es, Vertex(3), [Vertex(4), Vertex(6), Vertex(2)], Dfs(map[1 := t + 1, 2 := t + 2, 3 := t + 3], map[1 := t + 1, 2 := t + 2, 3 := t + 3], map[2 := 1, 3 := 2], t + 3, [], []), 0, false)
         == Scan(vs, es, Vertex(3), [Vertex(6), Vertex(2)], Dfs(map[1 := t + 1, 2 := t + 2, 3 := t + 3, 4 := t + 4], map[1 := t + 1, 2 := t + 2, 3 := t + 3, 4 := t + 4], map[2 := 1, 3 := 2, 4 := 3], t + 4, [E(3, 4)], [3]), 1, false)
  {
    var s := Dfs(map[1 := t + 1, 2 := t + 2, 3 := t + 3], map[1 := t + 1, 2 := t + 2, 3 := t + 3], map[2 := 1, 3 := 2], t + 3, [], []);
    var c0 := Dfs(map[1 := t + 1, 2 := t + 2, 3 := t + 3], map[1 := t + 1, 2 := t + 2, 3 := t + 3], map[2 := 1, 3 := 2, 4 := 3], t + 3, [], []);
    var c := Dfs(map[1 := t + 1, 2 := t + 2, 3 := t + 3, 4 := t + 4], map[1 := t + 1, 2 := t + 2, 3 := t + 3, 4 := t + 4], map[2 := 1, 3 := 2, 4 := 3], t + 4, [], []);
    var u, v, ws, children, lowU, bridge, root, cut := Vertex(3), Vertex(4), [Vertex(4), Vertex(6), Vertex(2)], 0, t + 3, true, false, true;
    assert lowU == Min(c.low[u.id], c.low[v.id]);
    assert bridge == (c.low[v.id] > c.disc[u.id]);
    assert root == (u.id !in c.parent && children + 1 > 1);
    assert u.id in c.parent && cut == (c.low[v.id] >= c.disc[u.id]);
    assert c.(low := c.low[u.id := lowU], bridges := c.bridges + (if bridge then [E(u.id, v.id)] else []),
              points := c.points + (if root then [u.id] else []) + (if cut then [u.id] else []))
        == Dfs(map[1 := t + 1, 2 := t + 2, 3 := t + 3, 4 := t + 4], map[1 := t + 1, 2 := t + 2, 3 := t + 3, 4 := t + 4], map[2 := 1, 3 := 2, 4 := 3], t + 4, [E(3, 4)], [3]);
    assert ws[1..] == [Vertex(6), Vertex(2)];
    SixVisit4(vs, es, t);
    ScanChild(vs, es, u, v, ws, s, children, c0, c, lowU, bridge, root, cut);
  }

  /** At vertex 3, neighbour 6 is a new child. */
  lemma SixScan3_2(vs: seq<Vertex>, es: seq<Edge>, t: int)
    requires SixShape(vs, es)
    ensures Scan(vs, es, Vertex(3), [Vertex(6), Vertex(2)], Dfs(map[1 := t + 1, 2 := t + 2, 3 := t + 3, 4 := t + 4], map[1 := t + 1, 2 := t + 2, 3 := t + 3, 4 := t + 4], map[2 := 1, 3 := 2, 4 := 3], t + 4, [E(3, 4)], [3]), 1, false)
         == Scan(vs, es, Vertex(3), [Vertex(2)], Dfs(map[1 := t + 1, 2 := t + 2, 3 := t + 3, 4 := t + 4, 6 := t + 5, 5 := t + 6], map[1 := t + 1, 2 := t + 2, 3 := t + 2, 4 := t + 4, 6 := t + 2, 5 := t + 2], map[2 := 1, 3 := 2, 4 := 3, 6 := 3, 5 := 6], t + 6, [E(3, 4)], [3]), 2, false)
  {
    var s := Dfs(map[1 := t + 1, 2 := t + 2, 3 := t + 3, 4 := t + 4], map[1 := t + 1, 2 := t + 2, 3 := t + 3, 4 := t + 4], map[2 := 1, 3 := 2, 4 := 3], t + 4, [E(3, 4)], [3]);
    var c0 := Dfs(map[1 := t + 1, 2 := t + 2, 3 := t + 3, 4 := t + 4], map[1 := t + 1, 2 := t + 2, 3 := t + 3, 4 := t + 4], map[2 := 1, 3 := 2, 4 := 3, 6 := 3], t + 4, [E(3, 4)], [3]);
    var c := Dfs(map[1 := t + 1, 2 := t + 2, 3 := t + 3, 4 := t + 4, 6 := t + 5, 5 := t + 6], map[1 := t + 1, 2 := t + 2, 3 := t + 3, 4 := t + 4, 6 := t + 2, 5 := t + 2], map[2 := 1, 3 := 2, 4 := 3, 6 := 3, 5 := 6], t + 6, [E(3, 4)], [3]);
    var u, v, ws, children, lowU, bridge, root, cut := Vertex(3), Vertex(6), [Vertex(6), Vertex(2)], 1, t + 2, false, false, false;
    assert lowU == Min(c.low[u.id], c.low[v.id]);
    assert bridge == (c.low[v.id] > c.disc[u.id]);
    assert root == (u.id !in c.parent && children + 1 > 1);
    assert u.id in c.parent && cut == (c.low[v.id] >= c.disc[u.id]);
    assert c.(low := c.low[u.id := lowU], bridges := c.bridges + (if bridge then [E(u.id, v.id)] else []),
              points := c.points + (if root then [u.id] else []) + (if cut then [u.id] else []))
        == Dfs(map[1 := t + 1, 2 := t + 2, 3 := t + 3, 4 := t + 4, 6 := t + 5, 5 := t + 6], map[1 := t + 1, 2 := t + 2, 3 := t + 2, 4 := t + 4, 6 := t + 2, 5 := t + 2], map[2 := 1, 3 := 2, 4 := 3, 6 := 3, 5 := 6], t + 6, [E(3, 4)], [3]);
    assert ws[1..] == [Vertex(2)];
    SixVisit6(vs, es, t);
    ScanChild(vs, es, u, v, ws, s, children, c0, c, lowU, bridge, root, cut);
  }

  /** At vertex 3, neighbour 2 is the parent, skipped. */
  lemma SixScan3_3(vs: seq<Vertex>, es: seq<Edge>, t: int)
    requires SixIds(vs, es)
    ensures Scan(vs, es, Vertex(3), [Vertex(2)], Dfs(map[1 := t + 1, 2 := t + 2, 3 := t + 3, 4 := t + 4, 6 := t + 5, 5 := t + 6], map[1 := t + 1, 2 := t + 2, 3 := t + 2, 4 := t + 4, 6 := t + 2, 5 := t + 2], map[2 := 1, 3 := 2, 4 := 3, 6 := 3, 5 := 6], t + 6, [E(3, 4)], [3]), 2, false)
         == Scan(vs, es, Vertex(3), [], Dfs(map[1 := t + 1, 2 := t + 2, 3 := t + 3, 4 := t + 4, 6 := t + 5, 5 := t + 6], map[1 := t + 1, 2 := t + 2, 3 := t + 2, 4 := t + 4, 6 := t + 2, 5 := t + 2], map[2 := 1, 3 := 2, 4 := 3, 6 := 3, 5 := 6], t + 6, [E(3, 4)], [3]), 2, false)
  {
    ScanSeen(vs, es, Vertex(3), [Vertex(2)], Dfs(map[1 := t + 1, 2 := t + 2, 3 := t + 3, 4 := t + 4, 6 := t + 5, 5 := t + 6], map[1 := t + 1, 2 := t + 2, 3 := t + 2, 4 := t + 4, 6 := t + 2, 5 := t + 2], map[2 := 1, 3 := 2, 4 := 3, 6 := 3, 5 := 6], t + 6, [E(3, 4)], [3]), 2, false);
  }

  /** The visit of vertex 3 from 2. */
  lemma SixVisit3(vs: seq<Vertex>, es: seq<Edge>, t: int)
    requires SixShape(vs, es)
    ensures Visit(vs, es, Vertex(3), Dfs(map[1 := t + 1, 2 := t + 2], map[1 := t + 1, 2 := t + 2], map[2 := 1, 3 := 2], t + 2, [], []), false)
         == Dfs(map[1 := t + 1, 2 := t + 2, 3 := t + 3, 4 := t + 4, 6 := t + 5, 5 := t + 6], map[1 := t + 1, 2 := t + 2, 3 := t + 2, 4 := t + 4, 6 := t + 2, 5 := t + 2], map[2 := 1, 3 := 2, 4 := 3, 6 := 3, 5 := 6], t + 6, [E(3, 4)], [3])
  {
    VisitStart(vs, es, Vertex(3), Dfs(map[1 := t + 1, 2 := t + 2], map[1 := t + 1, 2 := t + 2], map[2 := 1, 3 := 2], t + 2, [], []), false);
    WholeSlice(Targets(es, Vertex(3)));
    SixScan3_1(vs, es, t);
    SixScan3_2(vs, es, t);
    SixScan3_3(vs, es, t);
    ScanEnd(vs, es, Vertex(3), Dfs(map[1 := t + 1, 2 := t + 2, 3 := t + 3, 4 := t + 4, 6 := t + 5, 5 := t + 6], map[1 := t + 1, 2 := t + 2, 3 := t + 2, 4 := t + 4, 6 := t + 2, 5 := t + 2], map[2 := 1, 3 := 2, 4 := 3, 6 := 3, 5 := 6], t + 6, [E(3, 4)], [3]), 2, false);
  }

  /** At vertex 2, neighbour 3 is a new child. */
  lemma SixScan2_1(vs: seq<Vertex>, es: seq<Edge>, t: int)
    requires SixShape(vs, es)
    ensures Scan(vs, es, Vertex(2), [Vertex(3), Vertex(5), Vertex(1)], Dfs(map[1 := t + 1, 2 := t + 2], map[1 := t + 1, 2 := t + 2], map[2 := 1], t + 2, [], []), 0, false)
         == Scan(vs, es, Vertex(2), [Vertex(5), Vertex(1)], Dfs(map[1 := t + 1, 2 := t + 2, 3 := t + 3, 4 := t + 4, 6 := t + 5, 5 := t + 6], map[1 := t + 1, 2 := t + 2, 3 := t + 2, 4 := t + 4, 6 := t + 2, 5 := t + 2], map[2 := 1, 3 := 2, 4 := 3, 6 := 3, 5 := 6], t + 6, [E(3, 4)], [3, 2]), 1, false)
  {
    var s := Dfs(map[1 := t + 1, 2 := t + 2], map[1 := t + 1, 2 := t + 2], map[2 := 1], t + 2, [], []);
    var c0 := Dfs(map[1 := t + 1, 2 := t + 2], map[1 := t + 1, 2 := t + 2], map[2 := 1, 3 := 2], t + 2, [], []);
    var c := Dfs(map[1 := t + 1, 2 := t + 2, 3 := t + 3, 4 := t + 4, 6 := t + 5, 5 := t + 6], map[1 := t + 1, 2 := t + 2, 3 := t + 2, 4 := t + 4, 6 := t + 2, 5 := t + 2], map[2 := 1, 3 := 2, 4 := 3, 6 := 3, 5 := 6], t + 6, [E(3, 4)], [3]);
    var u, v, ws, children, lowU, bridge, root, cut := Vertex(2), Vertex(3), [Vertex(3), Vertex(5), Vertex(1)], 0, t + 2, false, false, true;
    assert lowU == Min(c.low[u.id], c.low[v.id]);
    assert bridge == (c.low[v.id] > c.disc[u.id]);
    assert root == (u.id !in c.parent && children + 1 > 1);
    assert u.id in c.parent && cut == (c.low[v.id] >= c.disc[u.id]);
    assert c.(low := c.low[u.id := lowU], bridges := c.bridges + (if bridge then [E(u.id, v.id)] else []),
              points := c.points + (if root then [u.id] else []) + (if cut then [u.id] else []))
        == Dfs(map[1 := t + 1, 2 := t + 2, 3 := t + 3, 4 := t + 4, 6 := t + 5, 5 := t + 6], map[1 := t + 1, 2 := t + 2, 3 := t + 2, 4 := t + 4, 6 := t + 2, 5 := t + 2], map[2 := 1, 3 := 2, 4 := 3, 6 := 3, 5 := 6], t + 6, [E(3, 4)], [3, 2]);
    assert ws[1..] == [Vertex(5), Vertex(1)];
    SixVisit3(vs, es, t);
    ScanChild(vs, es, u, v, ws, s, children, c0, c, lowU, bridge, root, cut);
  }

  /** At vertex 2, neighbour 5 is already discovered: a back edge. */
  lemma SixScan2_2(vs: seq<Vertex>, es: seq<Edge>, t: int)
    requires SixIds(vs, es)
    ensures Scan(vs, es, Vertex(2), [Vertex(5), Vertex(1)], Dfs(map[1 := t + 1, 2 := t + 2, 3 := t + 3, 4 := t + 4, 6 := t + 5, 5 := t + 6], map[1 := t + 1, 2 := t + 2, 3 := t + 2, 4 := t + 4, 6 := t + 2, 5 := t + 2], map[2 := 1, 3 := 2, 4 := 3, 6 := 3, 5 := 6], t + 6, [E(3, 4)], [3, 2]), 1, false)
         == Scan(vs, es, Vertex(2), [Vertex(1)], Dfs(map[1 := t + 1, 2 := t + 2, 3 := t + 3, 4 := t + 4, 6 := t + 5, 5 := t + 6], map[1 := t + 1, 2 := t + 2, 3 := t + 2, 4 := t + 4, 6 := t + 2, 5 := t + 2], map[2 := 1, 3 := 2, 4 := 3, 6 := 3, 5 := 6], t + 6, [E(3, 4)], [3, 2]), 1, false)
  {
    assert [Vertex(5), Vertex(1)][1..] == [Vertex(1)];
    ScanSeen(vs, es, Vertex(2), [Vertex(5), Vertex(1)], Dfs(map[1 := t + 1, 2 := t + 2, 3 := t + 3, 4 := t + 4, 6 := t + 5, 5 := t + 6], map[1 := t + 1, 2 := t + 2, 3 := t + 2, 4 := t + 4, 6 := t + 2, 5 := t + 2], map[2 := 1, 3 := 2, 4 := 3, 6 := 3, 5 := 6], t + 6, [E(3, 4)], [3, 2]), 1, false);
  }

  /** At vertex 2, neighbour 1 is the parent, skipped. */
  lemma SixScan2_3(vs: seq<Vertex>, es: seq<Edge>, t: int)
    requires SixIds(vs, es)
    ensures Scan(vs, es, Vertex(2), [Vertex(1)], Dfs(map[1 := t + 1, 2 := t + 2, 3 := t + 3, 4 := t + 4, 6 := t + 5, 5 := t + 6], map[1 := t + 1, 2 := t + 2, 3 := t + 2, 4 := t + 4, 6 := t + 2, 5 := t + 2], map[2 := 1, 3 := 2, 4 := 3, 6 := 3, 5 := 6], t + 6, [E(3, 4)], [3, 2]), 1, false)
         == Scan(vs, es, Vertex(2), [], Dfs(map[1 := t + 1, 2 := t + 2, 3 := t + 3, 4 := t + 4, 6 := t + 5, 5 := t + 6], map[1 := t + 1, 2 := t + 2, 3 := t + 2, 4 := t + 4, 6 := t + 2, 5 := t + 2], map[2 := 1, 3 := 2, 4 := 3, 6 := 3, 5 := 6], t + 6, [E(3, 4)], [3, 2]), 1, false)
  {
    ScanSeen(vs, es, Vertex(2), [Vertex(1)], Dfs(map[1 := t + 1, 2 := t + 2, 3 := t + 3, 4 := t + 4, 6 := t + 5, 5 := t + 6], map[1 := t + 1, 2 := t + 2, 3 := t + 2, 4 := t + 4, 6 := t + 2, 5 := t + 2], map[2 := 1, 3 := 2, 4 := 3, 6 := 3, 5 := 6], t + 6, [E(3, 4)], [3, 2]), 1, false);
  }

  /** The visit of vertex 2 from 1. */
  lemma SixVisit2(vs: seq<Vertex>, es: seq<Edge>, t: int)
    requires SixShape(vs, es)
    ensures Visit(vs, es, Vertex(2), Dfs(map[1 := t + 1], map[1 := t + 1], map[2 := 1], t + 1, [], []), false)
         == Dfs(map[1 := t + 1, 2 := t + 2, 3 := t + 3, 4 := t + 4, 6 := t + 5, 5 := t + 6], map[1 := t + 1, 2 := t + 2, 3 := t + 2, 4 := t + 4, 6 := t + 2, 5 := t + 2], map[2 := 1, 3 := 2, 4 := 3, 6 := 3, 5 := 6], t + 6, [E(3, 4)], [3, 2])
  {
    VisitStart(vs, es, Vertex(2), Dfs(map[1 := t + 1], map[1 := t + 1], map[2 := 1], t + 1, [], []), false);
    WholeSlice(Targets(es, Vertex(2)));
    SixScan2_1(vs, es, t);
    SixScan2_2(vs, es, t);
    SixScan2_3(vs, es, t);
    ScanEnd(vs, es, Vertex(2), Dfs(map[1 := t + 1, 2 := t + 2, 3 := t + 3, 4 := t + 4, 6 := t + 5, 5 := t + 6], map[1 := t + 1, 2 := t + 2, 3 := t + 2, 4 := t + 4, 6 := t + 2, 5 := t + 2], map[2 := 1, 3 := 2, 4 := 3, 6 := 3, 5 := 6], t + 6, [E(3, 4)], [3, 2]), 1, false);
  }

  /** Back at the root 1 after the visit of vertex 2: the edge 1-2 is a bridge. */
  lemma SixRootReturned(t: int)
    ensures Returned(Dfs(map[1 := t + 1, 2 := t + 2, 3 := t + 3, 4 := t + 4, 6 := t + 5, 5 := t + 6], map[1 := t + 1, 2 := t + 2, 3 := t + 2, 4 := t + 4, 6 := t + 2, 5 := t + 2], map[2 := 1, 3 := 2, 4 := 3, 6 := 3, 5 := 6], t + 6, [E(3, 4)], [3, 2]), Vertex(1), Vertex(2), 1)
         == Dfs(map[1 := t + 1, 2 := t + 2, 3 := t + 3, 4 := t + 4, 6 := t + 5, 5 := t + 6], map[1 := t + 1, 2 := t + 2, 3 := t + 2, 4 := t + 4, 6 := t + 2, 5 := t + 2], map[2 := 1, 3 := 2, 4 := 3, 6 := 3, 5 := 6], t + 6, [E(3, 4), E(1, 2)], [3, 2])
  {
    var c := Dfs(map[1 := t + 1, 2 := t + 2, 3 := t + 3, 4 := t + 4, 6 := t + 5, 5 := t + 6], map[1 := t + 1, 2 := t + 2, 3 := t + 2, 4 := t + 4, 6 := t + 2, 5 := t + 2], map[2 := 1, 3 := 2, 4 := 3, 6 := 3, 5 := 6], t + 6, [E(3, 4)], [3, 2]);
    RootReturned(c, Vertex(1), Vertex(2), true);
    assert [E(3, 4)] + [E(1, 2)] == [E(3, 4), E(1, 2)];
  }

  /** At vertex 1, neighbour 2 is a new child, whose visit `SixVisit2` states. */
  lemma SixScan1_1(vs: seq<Vertex>, es: seq<Edge>, t: int)
    requires SixIds(vs, es)
    requires Visit(vs, es, Vertex(2), Dfs(map[1 := t + 1], map[1 := t + 1], map[2 := 1], t + 1, [], []), false)
          == Dfs(map[1 := t + 1, 2 := t + 2, 3 := t + 3, 4 := t + 4, 6 := t + 5, 5 := t + 6], map[1 := t + 1, 2 := t + 2, 3 := t + 2, 4 := t + 4, 6 := t + 2, 5 := t + 2], map[2 := 1, 3 := 2, 4 := 3, 6 := 3, 5 := 6], t + 6, [E(3, 4)], [3, 2])
    ensures Scan(vs, es, Vertex(1), [Vertex(2)], Dfs(map[1 := t + 1], map[1 := t + 1], map[], t + 1, [], []), 0, false)
         == Scan(vs, es, Vertex(1), [], Dfs(map[1 := t + 1, 2 := t + 2, 3 := t + 3, 4 := t + 4, 6 := t + 5, 5 := t + 6], map[1 := t + 1, 2 := t + 2, 3 := t + 2, 4 := t + 4, 6 := t + 2, 5 := t + 2], map[2 := 1, 3 := 2, 4 := 3, 6 := 3, 5 := 6], t + 6, [E(3, 4), E(1, 2)], [3, 2]), 1, false)
  {
    var s := Dfs(map[1 := t + 1], map[1 := t + 1], map[], t + 1, [], []);
    assert s.(parent := s.parent[2 := 1]) == Dfs(map[1 := t + 1], map[1 := t + 1], map[2 := 1], t + 1, [], []);
    assert [Vertex(2)][1..] == [];
    ScanNew(vs, es, Vertex(1), [Vertex(2)], s, 0, false);
    SixRootReturned(t);
  }

  /** The visit of vertex 1, the root. */
  lemma SixVisit1(vs: seq<Vertex>, es: seq<Edge>, t: int)
    requires SixShape(vs, es)
    ensures Visit(vs, es, Vertex(1), Dfs(map[], map[], map[], t, [], []), false)
         == Dfs(map[1 := t + 1, 2 := t + 2, 3 := t + 3, 4 := t + 4, 6 := t + 5, 5 := t + 6], map[1 := t + 1, 2 := t + 2, 3 := t + 2, 4 := t + 4, 6 := t + 2, 5 := t + 2], map[2 := 1, 3 := 2, 4 := 3, 6 := 3, 5 := 6], t + 6, [E(3, 4), E(1, 2)], [3, 2])
  {
    VisitStart(vs, es, Vertex(1), Dfs(map[], map[], map[], t, [], []), false);
    WholeSlice(Targets(es, Vertex(1)));
    SixVisit2(vs, es, t);
    SixScan1_1(vs, es, t);
    ScanEnd(vs, es, Vertex(1), Dfs(map[1 := t + 1, 2 := t + 2, 3 := t + 3, 4 := t + 4, 6 := t + 5, 5 := t + 6], map[1 := t + 1, 2 := t + 2, 3 := t + 2, 4 := t + 4, 6 := t + 2, 5 := t + 2], map[2 := 1, 3 := 2, 4 := 3, 6 := 3, 5 := 6], t + 6, [E(3, 4), E(1, 2)], [3, 2]), 1, false);
  }

  /** The whole search of the six-vertex sample from clock `t`. */
  lemma SixSearch(vs: seq<Vertex>, es: seq<Edge>, t: int)
    requires SixShape(vs, es) && vs == Six()
    ensures Search(vs, es, t)
         == Dfs(map[1 := t + 1, 2 := t + 2, 3 := t + 3, 4 := t + 4, 6 := t + 5, 5 := t + 6],
                map[1 := t + 1, 2 := t + 2, 3 := t + 2, 4 := t + 4, 6 := t + 2, 5 := t + 2],
                map[2 := 1, 3 := 2, 4 := 3, 6 := 3, 5 := 6], t + 6, [E(3, 4), E(1, 2)], [3, 2])
  {
    var r := Dfs(map[1 := t + 1, 2 := t + 2, 3 := t + 3, 4 := t + 4, 6 := t + 5, 5 := t + 6],
                 map[1 := t + 1, 2 := t + 2, 3 := t + 2, 4 := t + 4, 6 := t + 2, 5 := t + 2],
                 map[2 := 1, 3 := 2, 4 := 3, 6 := 3, 5 := 6], t + 6, [E(3, 4), E(1, 2)], [3, 2]);
    assert Start(t) == Dfs(map[], map[], map[], t, [], []);
    assert vs[1..] == [Vertex(2), Vertex(3), Vertex(4), Vertex(5), Vertex(6)];
    SweepDone(vs, es, vs[1..], r, false);
    SweepNew(vs, es, vs, Start(t), false);
    SixVisit1(vs, es, t);
  }

  /** The bridge list of the sample answers the test's three lookups. */
  lemma BridgesFound(bs: seq<Edge>)
    requires bs == [E(3, 4), E(1, 2)]
    ensures (exists e :: e in bs && SameEndpoints(e, E(1, 2))) &&
            (exists e :: e in bs && SameEndpoints(e, E(3, 4))) &&
            !(exists e :: e in bs && SameEndpoints(e, E(2, 3)))
  {
    assert bs[1] == E(1, 2) && SameEndpoints(bs[1], E(1, 2));
    assert bs[0] == E(3, 4) && SameEndpoints(bs[0], E(3, 4));
  }

  /** The cut-vertex list of the sample answers the test's four lookups. */
  lemma PointsFound(ps: seq<int>)
    requires ps == [3, 2]
    ensures 2 in ps && 3 in ps && 1 !in ps && 4 !in ps
  {
  }

  /** `findBridges` from clock 0, for any edge list with the sample's adjacency lists. */
  lemma SixBridges(vs: seq<Vertex>, es: seq<Edge>)
    requires SixShape(vs, es) && vs == Six()
    ensures var b := Search(vs, es, 0); b.bridges == [E(3, 4), E(1, 2)] && b.time == 6
  {
    SixSearch(vs, es, 0);
  }

  /** `findArticulationPoints` from clock 6, for any edge list with the sample's adjacency lists. */
  lemma SixPoints(vs: seq<Vertex>, es: seq<Edge>)
    requires SixShape(vs, es) && vs == Six()
    ensures Search(vs, es, 6).points == [3, 2]
  {
    SixSearch(vs, es, 6);
  }

  /**
   * What the test expects: `findBridges` from clock 0 returns the bridges (3, 4) and (1, 2), so
   * (1, 2) and (3, 4) are found and (2, 3) is not, and leaves the clock at 6;
   * `findArticulationPoints`, from clock 6, returns 3 and 2, so 2 and 3 are found and 1 and 4 are not.
   */
  lemma SixSample(vs: seq<Vertex>, es: seq<Edge>)
    requires vs == Six() && es == SixEdges()
    ensures var b := Search(vs, es, 0);
            b.bridges == [E(3, 4), E(1, 2)] && b.time == 6 &&
            (exists e :: e in b.bridges && SameEndpoints(e, E(1, 2))) &&
            (exists e :: e in b.bridges && SameEndpoints(e, E(3, 4))) &&
            !(exists e :: e in b.bridges && SameEndpoints(e, E(2, 3)))
    ensures var p := Search(vs, es, 6).points;
            p == [3, 2] && 2 in p && 3 in p && 1 !in p && 4 !in p
  {
    SixHasShape();
    SixBridges(vs, es);
    BridgesFound(Search(vs, es, 0).bridges);
    SixPoints(vs, es);
    PointsFound(Search(vs, es, 6).points);
  }

  // ----- tests/test_bridges_articulation.cpp:54-86, a triangle -----

  function Triangle(): seq<Vertex> {
    [Vertex(1), Vertex(2), Vertex(3)]
  }

  function TriangleEdges(): seq<Edge> {
    [E(1, 2), E(1, 3), E(2, 3), E(2, 1), E(3, 2), E(3, 1)]
  }

  /** The ids of the triangle. */
  ghost predicate TriangleIds(vs: seq<Vertex>, es: seq<Edge>) {
    Ids(vs, es) == {1, 2, 3}
  }

  /** Its ids and the neighbours of each vertex, in edge order. */
  ghost predicate TriangleShape(vs: seq<Vertex>, es: seq<Edge>) {
    TriangleIds(vs, es) &&
    Targets(es, Vertex(1)) == [Vertex(2), Vertex(3)] &&
    Targets(es, Vertex(2)) == [Vertex(3), Vertex(1)] &&
    Targets(es, Vertex(3)) == [Vertex(2), Vertex(1)]
  }

  lemma TriangleHasShape()
    ensures TriangleShape(Triangle(), TriangleEdges())
  {
    TargetsForward(TriangleEdges(), Vertex(1));
    TargetsForward(TriangleEdges(), Vertex(2));
    TargetsForward(TriangleEdges(), Vertex(3));
  }

  /** At vertex 3, neighbour 2 is the parent, skipped. */
  lemma TriangleScan3_1(vs: seq<Vertex>, es: seq<Edge>, t: int)
    requires TriangleIds(vs, es)
    ensures Scan(vs, es, Vertex(3), [Vertex(2), Vertex(1)], Dfs(map[1 := t + 1, 2 := t + 2, 3 := t + 3], map[1 := t + 1, 2 := t + 2, 3 := t + 3], map[2 := 1, 3 := 2], t + 3, [], []), 0, false)
         == Scan(vs, es, Vertex(3), [Vertex(1)], Dfs(map[1 := t + 1, 2 := t + 2, 3 := t + 3], map[1 := t + 1, 2 := t + 2, 3 := t + 3], map[2 := 1, 3 := 2], t + 3, [], []), 0, false)
  {
    assert [Vertex(2), Vertex(1)][1..] == [Vertex(1)];
    ScanSeen(vs, es, Vertex(3), [Vertex(2), Vertex(1)], Dfs(map[1 := t + 1, 2 := t + 2, 3 := t + 3], map[1 := t + 1, 2 := t + 2, 3 := t + 3], map[2 := 1, 3 := 2], t + 3, [], []), 0, false);
  }

  /** At vertex 3, neighbour 1 is already discovered: a back edge. */
  lemma TriangleScan3_2(vs: seq<Vertex>, es: seq<Edge>, t: int)
    requires TriangleIds(vs, es)
    ensures Scan(vs, es, Vertex(3), [Vertex(1)], Dfs(map[1 := t + 1, 2 := t + 2, 3 := t + 3], map[1 := t + 1, 2 := t + 2, 3 := t + 3], map[2 := 1, 3 := 2], t + 3, [], []), 0, false)
         == Scan(vs, es, Vertex(3), [], Dfs(map[1 := t + 1, 2 := t + 2, 3 := t + 3], map[1 := t + 1, 2 := t + 2, 3 := t + 1], map[2 := 1, 3 := 2], t + 3, [], []), 0, false)
  {
    ScanSeen(vs, es, Vertex(3), [Vertex(1)], Dfs(map[1 := t + 1, 2 := t + 2, 3 := t + 3], map[1 := t + 1, 2 := t + 2, 3 := t + 3], map[2 := 1, 3 := 2], t + 3, [], []), 0, false);
  }

  /** The visit of vertex 3 from 2. */
  lemma TriangleVisit3(vs: seq<Vertex>, es: seq<Edge>, t: int)
    requires TriangleShape(vs, es)
    ensures Visit(vs, es, Vertex(3), Dfs(map[1 := t + 1, 2 := t + 2], map[1 := t + 1, 2 := t + 2], map[2 := 1, 3 := 2], t + 2, [], []), false)
         == Dfs(map[1 := t + 1, 2 := t + 2, 3 := t + 3], map[1 := t + 1, 2 := t + 2, 3 := t + 1], map[2 := 1, 3 := 2], t + 3, [], [])
  {
    VisitStart(vs, es, Vertex(3), Dfs(map[1 := t + 1, 2 := t + 2], map[1 := t + 1, 2 := t + 2], map[2 := 1, 3 := 2], t + 2, [], []), false);
    WholeSlice(Targets(es, Vertex(3)));
    TriangleScan3_1(vs, es, t);
    TriangleScan3_2(vs, es, t);
    ScanEnd(vs, es, Vertex(3), Dfs(map[1 := t + 1, 2 := t + 2, 3 := t + 3], map[1 := t + 1, 2 := t + 2, 3 := t + 1], map[2 := 1, 3 := 2], t + 3, [], []), 0, false);
  }

  /** At vertex 2, neighbour 3 is a new child. */
  lemma TriangleScan2_1(vs: seq<Vertex>, es: seq<Edge>, t: int)
    requires TriangleShape(vs, es)
    ensures Scan(vs, es, Vertex(2), [Vertex(3), Vertex(1)], Dfs(map[1 := t + 1, 2 := t + 2], map[1 := t + 1, 2 := t + 2], map[2 := 1], t + 2, [], []), 0, false)
         == Scan(vs, es, Vertex(2), [Vertex(1)], Dfs(map[1 := t + 1, 2 := t + 2, 3 := t + 3], map[1 := t + 1, 2 := t + 1, 3 := t + 1], map[2 := 1, 3 := 2], t + 3, [], []), 1, false)
  {
    var s := Dfs(map[1 := t + 1, 2 := t + 2], map[1 := t + 1, 2 := t + 2], map[2 := 1], t + 2, [], []);
    var c0 := Dfs(map[1 := t + 1, 2 := t + 2], map[1 := t + 1, 2 := t + 2], map[2 := 1, 3 := 2], t + 2, [], []);
    var c := Dfs(map[1 := t + 1, 2 := t + 2, 3 := t + 3], map[1 := t + 1, 2 := t + 2, 3 := t + 1], map[2 := 1, 3 := 2], t + 3, [], []);
    var u, v, ws, children, lowU, bridge, root, cut := Vertex(2), Vertex(3), [Vertex(3), Vertex(1)], 0, t + 1, false, false, false;
    assert lowU == Min(c.low[u.id], c.low[v.id]);
    assert bridge == (c.low[v.id] > c.disc[u.id]);
    assert root == (u.id !in c.parent && children + 1 > 1);
    assert u.id in c.parent && cut == (c.low[v.id] >= c.disc[u.id]);
    assert c.(low := c.low[u.id := lowU], bridges := c.bridges + (if bridge then [E(u.id, v.id)] else []),
              points := c.points + (if root then [u.id] else []) + (if cut then [u.id] else []))
        == Dfs(map[1 := t + 1, 2 := t + 2, 3 := t + 3], map[1 := t + 1, 2 := t + 1, 3 := t + 1], map[2 := 1, 3 := 2], t + 3, [], []);
    assert ws[1..] == [Vertex(1)];
    TriangleVisit3(vs, es, t);
    ScanChild(vs, es, u, v, ws, s, children, c0, c, lowU, bridge, root, cut);
  }

  /** At vertex 2, neighbour 1 is the parent, skipped. */
  lemma TriangleScan2_2(vs: seq<Vertex>, es: seq<Edge>, t: int)
    requires TriangleIds(vs, es)
    ensures Scan(vs, es, Vertex(2), [Vertex(1)], Dfs(map[1 := t + 1, 2 := t + 2, 3 := t + 3], map[1 := t + 1, 2 := t + 1, 3 := t + 1], map[2 := 1, 3 := 2], t + 3, [], []), 1, false)
         == Scan(vs, es, Vertex(2), [], Dfs(map[1 := t + 1, 2 := t + 2, 3 := t + 3], map[1 := t + 1, 2 := t + 1, 3 := t + 1], map[2 := 1, 3 := 2], t + 3, [], []), 1, false)
  {
    ScanSeen(vs, es, Vertex(2), [Vertex(1)], Dfs(map[1 := t + 1, 2 := t + 2, 3 := t + 3], map[1 := t + 1, 2 := t + 1, 3 := t + 1], map[2 := 1, 3 := 2], t + 3, [], []), 1, false);
  }

  /** The visit of vertex 2 from 1. */
  lemma TriangleVisit2(vs: seq<Vertex>, es: seq<Edge>, t: int)
    requires TriangleShape(vs, es)
    ensures Visit(vs, es, Vertex(2), Dfs(map[1 := t + 1], map[1 := t + 1], map[2 := 1], t + 1, [], []), false)
         == Dfs(map[1 := t + 1, 2 := t + 2, 3 := t + 3], map[1 := t + 1, 2 := t + 1, 3 := t + 1], map[2 := 1, 3 := 2], t + 3, [], [])
  {
    VisitStart(vs, es, Vertex(2), Dfs(map[1 := t + 1], map[1 := t + 1], map[2 := 1], t + 1, [], []), false);
    WholeSlice(Targets(es, Vertex(2)));
    TriangleScan2_1(vs, es, t);
    TriangleScan2_2(vs, es, t);
    ScanEnd(vs, es, Vertex(2), Dfs(map[1 := t + 1, 2 := t + 2, 3 := t + 3], map[1 := t + 1, 2 := t + 1, 3 := t + 1], map[2 := 1, 3 := 2], t + 3, [], []), 1, false);
  }

  /** Back at the root 1 after the visit of vertex 2: the edge 1-2 is no bridge. */
  lemma TriangleRootReturned(t: int)
    ensures Returned(Dfs(map[1 := t + 1, 2 := t + 2, 3 := t + 3], map[1 := t + 1, 2 := t + 1, 3 := t + 1], map[2 := 1, 3 := 2], t + 3, [], []), Vertex(1), Vertex(2), 1)
         == Dfs(map[1 := t + 1, 2 := t + 2, 3 := t + 3], map[1 := t + 1, 2 := t + 1, 3 := t + 1], map[2 := 1, 3 := 2], t + 3, [], [])
  {
    RootReturned(Dfs(map[1 := t + 1, 2 := t + 2, 3 := t + 3], map[1 := t + 1, 2 := t + 1, 3 := t + 1], map[2 := 1, 3 := 2], t + 3, [], []), Vertex(1), Vertex(2), false);
  }

  /** At vertex 1, neighbour 2 is a new child, whose visit `TriangleVisit2` states. */
  lemma TriangleScan1_1(vs: seq<Vertex>, es: seq<Edge>, t: int)
    requires TriangleIds(vs, es)
    requires Visit(vs, es, Vertex(2), Dfs(map[1 := t + 1], map[1 := t + 1], map[2 := 1], t + 1, [], []), false)
          == Dfs(map[1 := t + 1, 2 := t + 2, 3 := t + 3], map[1 := t + 1, 2 := t + 1, 3 := t + 1], map[2 := 1, 3 := 2], t + 3, [], [])
    ensures Scan(vs, es, Vertex(1), [Vertex(2), Vertex(3)], Dfs(map[1 := t + 1], map[1 := t + 1], map[], t + 1, [], []), 0, false)
         == Scan(vs, es, Vertex(1), [Vertex(3)], Dfs(map[1 := t + 1, 2 := t + 2, 3 := t + 3], map[1 := t + 1, 2 := t + 1, 3 := t + 1], map[2 := 1, 3 := 2], t + 3, [], []), 1, false)
  {
    var s := Dfs(map[1 := t + 1], map[1 := t + 1], map[], t + 1, [], []);
    assert s.(parent := s.parent[2 := 1]) == Dfs(map[1 := t + 1], map[1 := t + 1], map[2 := 1], t + 1, [], []);
    assert [Vertex(2), Vertex(3)][1..] == [Vertex(3)];
    ScanNew(vs, es, Vertex(1), [Vertex(2), Vertex(3)], s, 0, false);
    TriangleRootReturned(t);
  }

  /** At vertex 1, neighbour 3 is already discovered: a back edge. */
  lemma TriangleScan1_2(vs: seq<Vertex>, es: seq<Edge>, t: int)
    requires TriangleIds(vs, es)
    ensures Scan(vs, es, Vertex(1), [Vertex(3)], Dfs(map[1 := t + 1, 2 := t + 2, 3 := t + 3], map[1 := t + 1, 2 := t + 1, 3 := t + 1], map[2 := 1, 3 := 2], t + 3, [], []), 1, false)
         == Scan(vs, es, Vertex(1), [], Dfs(map[1 := t + 1, 2 := t + 2, 3 := t + 3], map[1 := t + 1, 2 := t + 1, 3 := t + 1], map[2 := 1, 3 := 2], t + 3, [], []), 1, false)
  {
    ScanSeen(vs, es, Vertex(1), [Vertex(3)], Dfs(map[1 := t + 1, 2 := t + 2, 3 := t + 3], map[1 := t + 1, 2 := t + 1, 3 := t + 1], map[2 := 1, 3 := 2], t + 3, [], []), 1, false);
  }

  /** The visit of vertex 1, the root. */
  lemma TriangleVisit1(vs: seq<Vertex>, es: seq<Edge>, t: int)
    requires TriangleShape(vs, es)
    ensures Visit(vs, es, Vertex(1), Dfs(map[], map[], map[], t, [], []), false)
         == Dfs(map[1 := t + 1, 2 := t + 2, 3 := t + 3], map[1 := t + 1, 2 := t + 1, 3 := t + 1], map[2 := 1, 3 := 2], t + 3, [], [])
  {
    VisitStart(vs, es, Vertex(1), Dfs(map[], map[], map[], t, [], []), false);
    WholeSlice(Targets(es, Vertex(1)));
    TriangleVisit2(vs, es, t);
    TriangleScan1_1(vs, es, t);
    TriangleScan1_2(vs, es, t);
    ScanEnd(vs, es, Vertex(1), Dfs(map[1 := t + 1, 2 := t + 2, 3 := t + 3], map[1 := t + 1, 2 := t + 1, 3 := t + 1], map[2 := 1, 3 := 2], t + 3, [], []), 1, false);
  }

  /** The whole search of the triangle from clock `t`: nothing is recorded. */
  lemma TriangleSearch(vs: seq<Vertex>, es: seq<Edge>, t: int)
    requires TriangleShape(vs, es) && vs == Triangle()
    ensures Search(vs, es, t)
         == Dfs(map[1 := t + 1, 2 := t + 2, 3 := t + 3], map[1 := t + 1, 2 := t + 1, 3 := t + 1], map[2 := 1, 3 := 2], t + 3, [], [])
  {
    var r := Dfs(map[1 := t + 1, 2 := t + 2, 3 := t + 3], map[1 := t + 1, 2 := t + 1, 3 := t + 1], map[2 := 1, 3 := 2], t + 3, [], []);
    assert Start(t) == Dfs(map[], map[], map[], t, [], []);
    assert vs[1..] == [Vertex(2), Vertex(3)];
    SweepDone(vs, es, vs[1..], r, false);
    SweepNew(vs, es, vs, Start(t), false);
    TriangleVisit1(vs, es, t);
  }

  /**
   * What the test expects of the triangle: `findBridges` from clock 0 returns no bridge, and
   * `findArticulationPoints`, from the clock 3 it leaves, no point.
   */
  lemma TriangleSample(vs: seq<Vertex>, es: seq<Edge>)
    requires vs == Triangle() && es == TriangleEdges()
    ensures var b := Search(vs, es, 0);
            b.bridges == [] && b.time == 3 && Search(vs, es, 3).points == []
  {
    TriangleHasShape();
    TriangleSearch(vs, es, 0);
    TriangleSearch(vs, es, 3);
  }
}
