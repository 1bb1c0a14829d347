// The vector-backed base container (src/graph/Graph.cpp) and the sequence functions every
// container shares: membership tests, the erase/remove_if filters and the neighbour lists
// ("targets of the edges whose source is v, in edge order").

module GraphBase {
  import opened GraphTypes

  /** The edge `e` runs from `s` to `t` (edge equality compares the endpoints only). */
  predicate IsEdge(e: Edge, s: Vertex, t: Vertex) {
    e.source == s && e.target == t
  }

  /** Some edge of `es` runs from `s` to `t`: the `any_of` of `hasEdge`. */
  predicate HasEdgeIn(es: seq<Edge>, s: Vertex, t: Vertex) {
    exists i :: 0 <= i < |es| && IsEdge(es[i], s, t)
  }

  /** The edge `e` touches `v`. */
  predicate Touches(e: Edge, v: Vertex) {
    e.source == v || e.target == v
  }

  /** The elements of `s` that satisfy `keep`, in order: `erase(remove_if(...))` with the negated test. */
  function Filter<T>(s: seq<T>, keep: T -> bool): (r: seq<T>)
    ensures |r| <= |s|
    decreases |s|
  {
    if s == [] then []
    else Filter(s[..|s| - 1], keep) + (if keep(s[|s| - 1]) then [s[|s| - 1]] else [])
  }

  /** The test of `removeVertex` on vertices. */
  function OtherThan(v: Vertex): Vertex -> bool {
    (x: Vertex) => x.id != v.id
  }

  /** The test of `removeEdge`. */
  function NotEdge(s: Vertex, t: Vertex): Edge -> bool {
    (e: Edge) => !IsEdge(e, s, t)
  }

  /** The test of `removeVertex` on edges. */
  function NotTouching(v: Vertex): Edge -> bool {
    (e: Edge) => !Touches(e, v)
  }

  /** The vertex list without `v`. */
  function WithoutVertex(vs: seq<Vertex>, v: Vertex): seq<Vertex> {
    Filter(vs, OtherThan(v))
  }

  /** The edge list without every edge from `s` to `t`. */
  function WithoutEdge(es: seq<Edge>, s: Vertex, t: Vertex): seq<Edge> {
    Filter(es, NotEdge(s, t))
  }

  /** The edge list without every edge touching `v`. */
  function WithoutIncident(es: seq<Edge>, v: Vertex): seq<Edge> {
    Filter(es, NotTouching(v))
  }

  /** The targets of the edges whose source is `v`, in edge order. */
  function Targets(es: seq<Edge>, v: Vertex): seq<Vertex>
    decreases |es|
  {
    if es == [] then []
    else Targets(es[..|es| - 1], v) + (if es[|es| - 1].source == v then [es[|es| - 1].target] else [])
  }

  /** The targets of the edges whose source is `v` and whose target passes `keep`, in edge order. */
  function FilteredTargets(es: seq<Edge>, v: Vertex, keep: Vertex -> bool): seq<Vertex>
    decreases |es|
  {
    if es == [] then []
    else
      var e := es[|es| - 1];
      FilteredTargets(es[..|es| - 1], v, keep) + (if e.source == v && keep(e.target) then [e.target] else [])
  }

  /** A vertex list with no id twice. */
  ghost predicate DistinctVertices(vs: seq<Vertex>) {
    forall i, j :: 0 <= i < j < |vs| ==> vs[i] != vs[j]
  }

  /** An edge list with no (source, target) pair twice. */
  ghost predicate DistinctEdges(es: seq<Edge>) {
    forall i, j :: 0 <= i < j < |es| ==> !IsEdge(es[j], es[i].source, es[i].target)
  }

  /** Every edge runs between listed vertices. */
  ghost predicate EndpointsListed(vs: seq<Vertex>, es: seq<Edge>) {
    forall i :: 0 <= i < |es| ==> es[i].source in vs && es[i].target in vs
  }

  /** The invariant of the base container: no duplicate vertex, no duplicate edge, no dangling edge. */
  ghost predicate WellFormed(vs: seq<Vertex>, es: seq<Edge>) {
    DistinctVertices(vs) && DistinctEdges(es) && EndpointsListed(vs, es)
  }

  /** `addVertex`: append only a vertex that is not present. */
  function AddedVertex(vs: seq<Vertex>, v: Vertex): seq<Vertex> {
    if v in vs then vs else vs + [v]
  }

  /** `addEdge`: append `Edge(s, t)` only when both endpoints are present and the edge is absent. */
  function AddedEdge(vs: seq<Vertex>, es: seq<Edge>, s: Vertex, t: Vertex): seq<Edge> {
    if s in vs && t in vs && !HasEdgeIn(es, s, t) then es + [NewPlainEdge(s, t)] else es
  }

  // ----- The filter -----

  lemma {:induction false} FilterMembers<T>(s: seq<T>, keep: T -> bool, x: T)
    ensures x in Filter(s, keep) <==> x in s && keep(x)
    decreases |s|
  {
    if s != [] {
      FilterMembers(s[..|s| - 1], keep, x);
      assert s == s[..|s| - 1] + [s[|s| - 1]];
    }
  }

  /** Filtering keeps exactly the elements that pass, each at a position no later than before. */
  lemma {:induction false} FilterAt<T>(s: seq<T>, keep: T -> bool, k: nat)
    requires k < |Filter(s, keep)|
    ensures keep(Filter(s, keep)[k])
    ensures exists i :: k <= i < |s| && s[i] == Filter(s, keep)[k]
    decreases |s|
  {
    var init := s[..|s| - 1];
    if k < |Filter(init, keep)| {
      FilterAt(init, keep, k);
      var i :| k <= i < |init| && init[i] == Filter(init, keep)[k];
      assert s[i] == Filter(s, keep)[k];
    } else {
      assert Filter(s, keep)[k] == s[|s| - 1];
    }
  }

  /** A filter that keeps everything is the identity. */
  lemma {:induction false} FilterAll<T>(s: seq<T>, keep: T -> bool)
    requires forall i :: 0 <= i < |s| ==> keep(s[i])
    ensures Filter(s, keep) == s
    decreases |s|
  {
    if s != [] {
      FilterAll(s[..|s| - 1], keep);
      assert s == s[..|s| - 1] + [s[|s| - 1]];
    }
  }

  lemma {:induction false} FilterAppend<T>(s: seq<T>, x: T, keep: T -> bool)
    ensures Filter(s + [x], keep) == Filter(s, keep) + (if keep(x) then [x] else [])
  {
    assert (s + [x])[..|s + [x]| - 1] == s;
  }

  /** Two filters with the same verdict on every element agree. */
  lemma {:induction false} FilterSame<T>(s: seq<T>, p: T -> bool, q: T -> bool)
    requires forall i :: 0 <= i < |s| ==> p(s[i]) == q(s[i])
    ensures Filter(s, p) == Filter(s, q)
    decreases |s|
  {
    if s != [] {
      FilterSame(s[..|s| - 1], p, q);
    }
  }

  /** The filtered list is a subsequence of the original: positions keep their order. */
  lemma {:induction false} FilterOrder<T>(s: seq<T>, keep: T -> bool, k1: nat, k2: nat)
    requires k1 < k2 < |Filter(s, keep)|
    ensures exists i1, i2 :: 0 <= i1 < i2 < |s| && s[i1] == Filter(s, keep)[k1] && s[i2] == Filter(s, keep)[k2]
    decreases |s|
  {
    var init := s[..|s| - 1];
    if k2 < |Filter(init, keep)| {
      FilterOrder(init, keep, k1, k2);
      var i1, i2 :| 0 <= i1 < i2 < |init| && init[i1] == Filter(init, keep)[k1] && init[i2] == Filter(init, keep)[k2];
      assert s[i1] == Filter(s, keep)[k1] && s[i2] == Filter(s, keep)[k2];
    } else {
      FilterAt(init, keep, k1);
      var i1 :| k1 <= i1 < |init| && init[i1] == Filter(init, keep)[k1];
      assert s[i1] == Filter(s, keep)[k1];
      assert s[|s| - 1] == Filter(s, keep)[k2];
    }
  }

  /** After a filter, an edge (a, b) remains exactly when some kept edge ran from a to b. */
  lemma {:induction false} FilterHas(es: seq<Edge>, keep: Edge -> bool, a: Vertex, b: Vertex)
    ensures HasEdgeIn(Filter(es, keep), a, b) <==> exists i :: 0 <= i < |es| && IsEdge(es[i], a, b) && keep(es[i])
  {
    var r := Filter(es, keep);
    if HasEdgeIn(r, a, b) {
      var k :| 0 <= k < |r| && IsEdge(r[k], a, b);
      FilterAt(es, keep, k);
      var i :| k <= i < |es| && es[i] == r[k];
      assert IsEdge(es[i], a, b) && keep(es[i]);
    }
    if exists i :: 0 <= i < |es| && IsEdge(es[i], a, b) && keep(es[i]) {
      var i :| 0 <= i < |es| && IsEdge(es[i], a, b) && keep(es[i]);
      FilterMembers(es, keep, es[i]);
      var k :| 0 <= k < |r| && r[k] == es[i];
      assert IsEdge(r[k], a, b);
    }
  }

  /** The filtered edges still run between listed vertices. */
  lemma {:induction false} FilterListed(vs: seq<Vertex>, es: seq<Edge>, keep: Edge -> bool)
    requires EndpointsListed(vs, es)
    ensures EndpointsListed(vs, Filter(es, keep))
  {
    var r := Filter(es, keep);
    forall k | 0 <= k < |r| ensures r[k].source in vs && r[k].target in vs {
      FilterAt(es, keep, k);
    }
  }

  // ----- Neighbours -----

  /** `w` is a neighbour of `v` exactly when some edge runs from `v` to `w`. */
  lemma {:induction false} TargetsMembers(es: seq<Edge>, v: Vertex, w: Vertex)
    ensures w in Targets(es, v) <==> HasEdgeIn(es, v, w)
    decreases |es|
  {
    if es != [] {
      var init := es[..|es| - 1];
      TargetsMembers(init, v, w);
      if HasEdgeIn(es, v, w) && !IsEdge(es[|es| - 1], v, w) {
        var i :| 0 <= i < |es| && IsEdge(es[i], v, w);
        assert IsEdge(init[i], v, w);
      }
      if HasEdgeIn(init, v, w) {
        var i :| 0 <= i < |init| && IsEdge(init[i], v, w);
        assert IsEdge(es[i], v, w);
      }
    }
  }

  /** The filtered neighbour list is the neighbour list with the filter applied. */
  lemma {:induction false} FilteredTargetsFilter(es: seq<Edge>, v: Vertex, keep: Vertex -> bool)
    ensures FilteredTargets(es, v, keep) == Filter(Targets(es, v), keep)
    decreases |es|
  {
    if es != [] {
      var init := es[..|es| - 1];
      var e := es[|es| - 1];
      FilteredTargetsFilter(init, v, keep);
      if e.source == v {
        assert Targets(es, v) == Targets(init, v) + [e.target];
        FilterAppend(Targets(init, v), e.target, keep);
      } else {
        assert Targets(es, v) == Targets(init, v);
      }
    }
  }

  lemma {:induction false} TargetsAppend(es: seq<Edge>, e: Edge, v: Vertex)
    ensures Targets(es + [e], v) == Targets(es, v) + (if e.source == v then [e.target] else [])
  {
    assert (es + [e])[..|es + [e]| - 1] == es;
  }

  lemma {:induction false} FilteredTargetsAppend(es: seq<Edge>, e: Edge, v: Vertex, keep: Vertex -> bool)
    ensures FilteredTargets(es + [e], v, keep) ==
            FilteredTargets(es, v, keep) + (if e.source == v && keep(e.target) then [e.target] else [])
  {
    assert (es + [e])[..|es + [e]| - 1] == es;
  }

  /** An edge list with no edge leaving `v` gives `v` no neighbours. */
  lemma {:induction false} NoTargets(es: seq<Edge>, v: Vertex)
    requires forall i :: 0 <= i < |es| ==> es[i].source != v
    ensures Targets(es, v) == []
    decreases |es|
  {
    if es != [] {
      NoTargets(es[..|es| - 1], v);
    }
  }

  // ----- The container operations -----

  /** `hasEdge` after `addEdge(s, t)`: the edge is there exactly when both endpoints are present or it was there. */
  lemma {:induction false} AddedEdgeHas(vs: seq<Vertex>, es: seq<Edge>, s: Vertex, t: Vertex, a: Vertex, b: Vertex)
    ensures HasEdgeIn(AddedEdge(vs, es, s, t), a, b) <==>
            HasEdgeIn(es, a, b) || (a == s && b == t && s in vs && t in vs)
  {
    var r := AddedEdge(vs, es, s, t);
    if r != es {
      assert IsEdge(r[|es|], s, t);
      if HasEdgeIn(es, a, b) {
        var i :| 0 <= i < |es| && IsEdge(es[i], a, b);
        assert IsEdge(r[i], a, b);
      }
      if HasEdgeIn(r, a, b) && !(a == s && b == t) {
        var i :| 0 <= i < |r| && IsEdge(r[i], a, b);
        assert i < |es| && IsEdge(es[i], a, b);
      }
    }
  }

  /** Adding an edge twice is the same as adding it once. */
  lemma {:induction false} AddedEdgeIdempotent(vs: seq<Vertex>, es: seq<Edge>, s: Vertex, t: Vertex)
    ensures AddedEdge(vs, AddedEdge(vs, es, s, t), s, t) == AddedEdge(vs, es, s, t)
  {
    AddedEdgeHas(vs, es, s, t, s, t);
  }

  /** `hasEdge` after `removeEdge(s, t)`: only the pair (s, t) disappears. */
  lemma {:induction false} WithoutEdgeHas(es: seq<Edge>, s: Vertex, t: Vertex, a: Vertex, b: Vertex)
    ensures HasEdgeIn(WithoutEdge(es, s, t), a, b) <==> HasEdgeIn(es, a, b) && !(a == s && b == t)
  {
    var keep := NotEdge(s, t);
    var r := WithoutEdge(es, s, t);
    if HasEdgeIn(r, a, b) {
      var k :| 0 <= k < |r| && IsEdge(r[k], a, b);
      FilterAt(es, keep, k);
      var i :| k <= i < |es| && es[i] == r[k];
      assert IsEdge(es[i], a, b);
    }
    if HasEdgeIn(es, a, b) && !(a == s && b == t) {
      var i :| 0 <= i < |es| && IsEdge(es[i], a, b);
      FilterMembers(es, keep, es[i]);
      var k :| 0 <= k < |r| && r[k] == es[i];
      assert IsEdge(r[k], a, b);
    }
  }

  /** Removing an edge that was just added restores the edge list. */
  lemma {:induction false} RemoveUndoesAdd(vs: seq<Vertex>, es: seq<Edge>, s: Vertex, t: Vertex)
    requires !HasEdgeIn(es, s, t)
    ensures WithoutEdge(AddedEdge(vs, es, s, t), s, t) == es
  {
    var keep := NotEdge(s, t);
    forall i | 0 <= i < |es| ensures keep(es[i]) {
      assert !IsEdge(es[i], s, t);
    }
    FilterAll(es, keep);
    if s in vs && t in vs {
      FilterAppend(es, NewPlainEdge(s, t), keep);
    }
  }

  /** Removing a vertex that was just added restores the vertex list. */
  lemma {:induction false} RemoveUndoesAddVertex(vs: seq<Vertex>, v: Vertex)
    requires v !in vs
    ensures WithoutVertex(AddedVertex(vs, v), v) == vs
  {
    var keep := OtherThan(v);
    forall i | 0 <= i < |vs| ensures keep(vs[i]) {
      assert vs[i] != v;
    }
    FilterAll(vs, keep);
    FilterAppend(vs, v, keep);
  }

  /** Filtering keeps a vertex list free of duplicates. */
  lemma {:induction false} FilterDistinct(vs: seq<Vertex>, keep: Vertex -> bool)
    requires DistinctVertices(vs)
    ensures DistinctVertices(Filter(vs, keep))
  {
    var r := Filter(vs, keep);
    forall k1, k2 | 0 <= k1 < k2 < |r| ensures r[k1] != r[k2] {
      FilterOrder(vs, keep, k1, k2);
    }
  }

  /** Filtering keeps an edge list free of duplicates. */
  lemma {:induction false} FilterDistinctEdges(es: seq<Edge>, keep: Edge -> bool)
    requires DistinctEdges(es)
    ensures DistinctEdges(Filter(es, keep))
  {
    var r := Filter(es, keep);
    forall k1, k2 | 0 <= k1 < k2 < |r| ensures !IsEdge(r[k2], r[k1].source, r[k1].target) {
      FilterOrder(es, keep, k1, k2);
    }
  }

  /** `addVertex` keeps the invariant. */
  lemma {:induction false} AddVertexKeeps(vs: seq<Vertex>, es: seq<Edge>, v: Vertex)
    requires WellFormed(vs, es)
    ensures WellFormed(AddedVertex(vs, v), es)
    ensures v in AddedVertex(vs, v) && forall x :: x in AddedVertex(vs, v) <==> x in vs || x == v
  {
  }

  /** `addEdge` keeps the invariant. */
  lemma {:induction false} AddEdgeKeeps(vs: seq<Vertex>, es: seq<Edge>, s: Vertex, t: Vertex)
    requires WellFormed(vs, es)
    ensures WellFormed(vs, AddedEdge(vs, es, s, t))
  {
    var r := AddedEdge(vs, es, s, t);
    if r != es {
      forall i, j | 0 <= i < j < |r| ensures !IsEdge(r[j], r[i].source, r[i].target) {
        if j == |es| && IsEdge(r[j], r[i].source, r[i].target) {
          assert IsEdge(es[i], s, t);
        }
      }
    }
  }

  /** `removeEdge` keeps the invariant. */
  lemma {:induction false} RemoveEdgeKeeps(vs: seq<Vertex>, es: seq<Edge>, s: Vertex, t: Vertex)
    requires WellFormed(vs, es)
    ensures WellFormed(vs, WithoutEdge(es, s, t))
  {
    var keep := NotEdge(s, t);
    FilterDistinctEdges(es, keep);
    var r := WithoutEdge(es, s, t);
    forall k | 0 <= k < |r| ensures r[k].source in vs && r[k].target in vs {
      FilterAt(es, keep, k);
    }
  }

  /** `removeVertex` keeps the invariant and removes the vertex with every edge touching it. */
  lemma {:induction false} RemoveVertexKeeps(vs: seq<Vertex>, es: seq<Edge>, v: Vertex)
    requires WellFormed(vs, es)
    ensures WellFormed(WithoutVertex(vs, v), WithoutIncident(es, v))
    ensures forall x :: x in WithoutVertex(vs, v) <==> x in vs && x != v
    ensures forall a, b :: HasEdgeIn(WithoutIncident(es, v), a, b) <==> HasEdgeIn(es, a, b) && a != v && b != v
  {
    var keepV := OtherThan(v);
    var keepE := NotTouching(v);
    var rv := WithoutVertex(vs, v);
    var re := WithoutIncident(es, v);
    FilterDistinct(vs, keepV);
    FilterDistinctEdges(es, keepE);
    forall x ensures x in rv <==> x in vs && x != v {
      FilterMembers(vs, keepV, x);
    }
    forall k | 0 <= k < |re| ensures re[k].source in rv && re[k].target in rv {
      FilterAt(es, keepE, k);
    }
    forall a, b ensures HasEdgeIn(re, a, b) <==> HasEdgeIn(es, a, b) && a != v && b != v {
      if HasEdgeIn(re, a, b) {
        var k :| 0 <= k < |re| && IsEdge(re[k], a, b);
        FilterAt(es, keepE, k);
        var i :| k <= i < |es| && es[i] == re[k];
        assert IsEdge(es[i], a, b);
      }
      if HasEdgeIn(es, a, b) && a != v && b != v {
        var i :| 0 <= i < |es| && IsEdge(es[i], a, b);
        FilterMembers(es, keepE, es[i]);
        var k :| 0 <= k < |re| && re[k] == es[i];
        assert IsEdge(re[k], a, b);
      }
    }
  }

  /** The base container `Graph`: a vertex vector and an edge vector. */
  class Graph {
    var vertices: seq<Vertex>
    var edges: seq<Edge>

    ghost predicate Valid()
      reads this
    {
      WellFormed(vertices, edges)
    }

    constructor ()
      ensures Valid() && vertices == [] && edges == []
    {
      vertices := [];
      edges := [];
    }

    /** `hasVertex`: some listed vertex has the id of `v`. */
    predicate HasVertex(v: Vertex)
      reads this
    {
      v in vertices
    }

    /** `hasEdge`: directional membership of (source, target). */
    predicate HasEdge(source: Vertex, target: Vertex)
      reads this
    {
      HasEdgeIn(edges, source, target)
    }

    /** `addVertex`: append the vertex unless its id is present. */
    method AddVertex(v: Vertex)
      requires Valid()
      modifies this`vertices
      ensures Valid() && vertices == AddedVertex(old(vertices), v)
    {
      if !HasVertex(v) {
        vertices := vertices + [v];
      }
      AddVertexKeeps(old(vertices), edges, v);
    }

    /** `removeVertex`: a no-op for an absent vertex; otherwise drop the vertex and every edge touching it. */
    method RemoveVertex(v: Vertex)
      requires Valid()
      modifies this
      ensures Valid()
      ensures old(HasVertex(v)) ==> vertices == WithoutVertex(old(vertices), v) && edges == WithoutIncident(old(edges), v)
      ensures !old(HasVertex(v)) ==> vertices == old(vertices) && edges == old(edges)
    {
      if !HasVertex(v) {
        return;
      }
      RemoveVertexKeeps(vertices, edges, v);
      vertices := WithoutVertex(vertices, v);
      edges := WithoutIncident(edges, v);
    }

    /** `addEdge`: append only between present vertices and only when the edge is absent. */
    method AddEdge(source: Vertex, target: Vertex)
      requires Valid()
      modifies this`edges
      ensures Valid() && edges == AddedEdge(vertices, old(edges), source, target)
    {
      AddEdgeKeeps(vertices, edges, source, target);
      if HasVertex(source) && HasVertex(target) && !HasEdge(source, target) {
        edges := edges + [NewPlainEdge(source, target)];
      }
    }

    /** `removeEdge`: delete every (source, target) edge. */
    method RemoveEdge(source: Vertex, target: Vertex)
      requires Valid()
      modifies this`edges
      ensures Valid() && edges == WithoutEdge(old(edges), source, target)
    {
      RemoveEdgeKeeps(vertices, edges, source, target);
      edges := WithoutEdge(edges, source, target);
    }

    /** `getNeighborsIterator`: collect the targets of the edges leaving `v`; no presence check. */
    method GetNeighbors(v: Vertex) returns (neighbors: seq<Vertex>)
      ensures neighbors == Targets(edges, v)
      ensures forall w :: w in neighbors <==> HasEdge(v, w)
    {
      neighbors := [];
      var i := 0;
      while i < |edges|
        invariant 0 <= i <= |edges|
        invariant neighbors == Targets(edges[..i], v)
      {
        TargetsAppend(edges[..i], edges[i], v);
        assert edges[..i + 1] == edges[..i] + [edges[i]];
        if edges[i].source == v {
          neighbors := neighbors + [edges[i].target];
        }
        i := i + 1;
      }
      assert edges[..i] == edges;
      forall w ensures w in neighbors <==> HasEdge(v, w) {
        TargetsMembers(edges, v, w);
      }
    }

    /** `getFilteredNeighborsIterator`: the neighbours that pass `keep`, in edge order. */
    method GetFilteredNeighbors(v: Vertex, keep: Vertex -> bool) returns (neighbors: seq<Vertex>)
      ensures neighbors == FilteredTargets(edges, v, keep)
      ensures neighbors == Filter(Targets(edges, v), keep)
    {
      neighbors := [];
      var i := 0;
      while i < |edges|
        invariant 0 <= i <= |edges|
        invariant neighbors == FilteredTargets(edges[..i], v, keep)
      {
        FilteredTargetsAppend(edges[..i], edges[i], v, keep);
        assert edges[..i + 1] == edges[..i] + [edges[i]];
        if edges[i].source == v && keep(edges[i].target) {
          neighbors := neighbors + [edges[i].target];
        }
        i := i + 1;
      }
      assert edges[..i] == edges;
      FilteredTargetsFilter(edges, v, keep);
    }
  }
}
