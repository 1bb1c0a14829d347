// The parent lookup of `dfsBridges` and `dfsArticulationPoints` as written
// (include/algorithms/bfs_dfs/BridgesAndArticulationPoints.h:98, 145): `parent[u.id]` inserts the
// entry `u.id -> 0` when the root of a search meets an already discovered neighbour. From then
// on the checks at lines 135 and 141 take the root for a vertex with a parent. On a
// two-vertex graph with a self-loop on the root the root is reported as an articulation point
// although removing it leaves a single vertex.

module LowLinkAsWritten {
  import opened GraphTypes
  import opened GraphBase
  import opened LowLinkSearch

  /** `findArticulationPoints` as written, from clock `t`. */
  function ArticulationPointsAsWritten(vs: seq<Vertex>, es: seq<Edge>, t: int): seq<int> {
    Sweep(vs, es, vs, Start(t), true).points
  }

  const V1 := Vertex(1)
  const V2 := Vertex(2)

  function SampleVertices(): seq<Vertex> {
    [V1, V2]
  }

  /** The edges 1 -> 1, 1 -> 2 and 2 -> 1, in this order. */
  function SampleEdges(): seq<Edge> {
    [NewPlainEdge(V1, V1), NewPlainEdge(V1, V2), NewPlainEdge(V2, V1)]
  }

  lemma SampleTargets()
    ensures Targets(SampleEdges(), V1) == [V1, V2] && Targets(SampleEdges(), V2) == [V1]
  {
    var e1, e2, e3 := NewPlainEdge(V1, V1), NewPlainEdge(V1, V2), NewPlainEdge(V2, V1);
    assert e1.source == V1 && e1.target == V1 && e2.source == V1 && e2.target == V2;
    assert e3.source == V2 && e3.target == V1;
    TargetsAppend([], e1, V1);
    TargetsAppend([], e1, V2);
    TargetsAppend([e1], e2, V1);
    TargetsAppend([e1], e2, V2);
    TargetsAppend([e1, e2], e3, V1);
    TargetsAppend([e1, e2], e3, V2);
    assert [] + [e1] == [e1] && [e1] + [e2] == [e1, e2] && [e1, e2] + [e3] == SampleEdges();
  }

  /** The state after `dfsArticulationPoints(2, ...)` returns to the root 1 in either version. */
  function AfterLeaf(rootParent: map<int, int>): Dfs {
    Dfs(map[1 := 1, 2 := 2], map[1 := 1, 2 := 2], rootParent[2 := 1], 2, [], [])
  }

  /** The call on vertex 2, entered from 1 with the parent map `rootParent[2 := 1]`. */
  lemma LeafVisit(rootParent: map<int, int>, inserting: bool)
    requires 2 !in rootParent
    ensures var s := Dfs(map[1 := 1], map[1 := 1], rootParent[2 := 1], 1, [], []);
            2 in Ids(SampleVertices(), SampleEdges()) &&
            Visit(SampleVertices(), SampleEdges(), V2, s, inserting) == AfterLeaf(rootParent)
  {
    var vs, es := SampleVertices(), SampleEdges();
    assert V2 in vs;
    SampleTargets();
    var s := Dfs(map[1 := 1], map[1 := 1], rootParent[2 := 1], 1, [], []);
    var e := Enter(s, V2);
    assert e == AfterLeaf(rootParent);
    assert Looked(e.parent, V2, inserting) == e.parent;
    assert Skips(e.parent, V2, V1);
    assert Scan(vs, es, V2, [V1][1..], e, 0, inserting) == e;
  }

  /** As written: the self-loop inserts `1 -> 0`, and the root is then recorded. */
  lemma AsWrittenRoot()
    ensures Visit(SampleVertices(), SampleEdges(), V1, Start(0), true).points == [1]
  {
    var vs, es := SampleVertices(), SampleEdges();
    assert V1 in vs;
    SampleTargets();
    var e := Enter(Start(0), V1);
    assert e == Dfs(map[1 := 1], map[1 := 1], map[], 1, [], []);
    var s1 := e.(parent := Looked(e.parent, V1, true));
    assert s1.parent == map[1 := 0];
    assert !Skips(s1.parent, V1, V1);
    var b := Back(s1, V1, V1);
    assert b == Dfs(map[1 := 1], map[1 := 1], map[1 := 0], 1, [], []);
    assert Scan(vs, es, V1, [V1, V2], e, 0, true) == Scan(vs, es, V1, [V2], b, 0, true);
    LeafVisit(map[1 := 0], true);
    var c := AfterLeaf(map[1 := 0]);
    assert b.(parent := b.parent[2 := 1]) == Dfs(map[1 := 1], map[1 := 1], map[1 := 0][2 := 1], 1, [], []);
    var r := Returned(c, V1, V2, 1);
    assert r.points == [1];
    assert Scan(vs, es, V1, [V2], b, 0, true) == Scan(vs, es, V1, [], r, 1, true);
  }

  /** As written, the sample graph reports vertex 1 as an articulation point. */
  lemma AsWrittenReportsRoot()
    ensures ArticulationPointsAsWritten(SampleVertices(), SampleEdges(), 0) == [1]
  {
    var vs, es := SampleVertices(), SampleEdges();
    AsWrittenRoot();
    var r := Visit(vs, es, V1, Start(0), true);
    assert 2 in r.disc by {
      LeafVisit(map[1 := 0], true);
      LeafInResult(true);
    }
    assert Sweep(vs, es, vs, Start(0), true) == Sweep(vs, es, [V2], r, true);
  }

  /** Vertex 2 is discovered by the call on the root, in either version. */
  lemma LeafInResult(inserting: bool)
    ensures 2 in Visit(SampleVertices(), SampleEdges(), V1, Start(0), inserting).disc
  {
    var vs, es := SampleVertices(), SampleEdges();
    assert V1 in vs;
    SampleTargets();
    var e := Enter(Start(0), V1);
    var b := Scan(vs, es, V1, [V1, V2], e, 0, inserting);
    assert Scan(vs, es, V1, [V1, V2], e, 0, inserting) ==
           Scan(vs, es, V1, [V2], Back(e.(parent := Looked(e.parent, V1, inserting)), V1, V1), 0, inserting);
  }

  /** With the corrected lookup the root has one child and is not recorded. */
  lemma CorrectedRoot()
    ensures Visit(SampleVertices(), SampleEdges(), V1, Start(0), false).points == []
  {
    var vs, es := SampleVertices(), SampleEdges();
    assert V1 in vs;
    SampleTargets();
    var e := Enter(Start(0), V1);
    assert e == Dfs(map[1 := 1], map[1 := 1], map[], 1, [], []);
    assert Looked(e.parent, V1, false) == map[];
    var b := Back(e, V1, V1);
    assert b == Dfs(map[1 := 1], map[1 := 1], map[], 1, [], []);
    assert Scan(vs, es, V1, [V1, V2], e, 0, false) == Scan(vs, es, V1, [V2], b, 0, false);
    LeafVisit(map[], false);
    var c := AfterLeaf(map[]);
    var r := Returned(c, V1, V2, 1);
    assert r.points == [];
    assert Scan(vs, es, V1, [V2], b, 0, false) == Scan(vs, es, V1, [], r, 1, false);
  }

  /** With the corrected lookup the sample graph has no articulation point. */
  lemma CorrectedReportsNone()
    ensures Search(SampleVertices(), SampleEdges(), 0).points == []
  {
    var vs, es := SampleVertices(), SampleEdges();
    CorrectedRoot();
    LeafInResult(false);
    var r := Visit(vs, es, V1, Start(0), false);
    assert Sweep(vs, es, vs, Start(0), false) == Sweep(vs, es, [V2], r, false);
  }
}
