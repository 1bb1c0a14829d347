// The undirected container (src/graph/UndirectedGraph.cpp): every edge is stored in both
// directions, and hasEdge and removeEdge look at both.

module UndirectedGraphs {
  import opened GraphTypes
  import opened GraphBase

  /** `hasEdge` of the undirected container: an edge in either direction. */
  predicate HasEitherIn(es: seq<Edge>, s: Vertex, t: Vertex) {
    HasEdgeIn(es, s, t) || HasEdgeIn(es, t, s)
  }

  /** Every stored edge has its opposite stored too. */
  ghost predicate Symmetric(es: seq<Edge>) {
    forall i :: 0 <= i < |es| ==> HasEdgeIn(es, es[i].target, es[i].source)
  }

  /** The invariant of the undirected container. */
  ghost predicate Undirected(vs: seq<Vertex>, es: seq<Edge>) {
    DistinctVertices(vs) && EndpointsListed(vs, es) && Symmetric(es)
  }

  /** `addEdge`: append (s, t) then (t, s), only between present vertices and when neither direction exists. */
  function AddedBoth(vs: seq<Vertex>, es: seq<Edge>, s: Vertex, t: Vertex): seq<Edge> {
    if s in vs && t in vs && !HasEitherIn(es, s, t) then es + [NewPlainEdge(s, t), NewPlainEdge(t, s)] else es
  }

  /** The test of `removeEdge`: keep an edge unless it joins `s` and `t` in either direction. */
  predicate KeepApart(e: Edge, s: Vertex, t: Vertex) {
    !IsEdge(e, s, t) && !IsEdge(e, t, s)
  }

  /** `removeEdge`: drop both directions. */
  function WithoutBoth(es: seq<Edge>, s: Vertex, t: Vertex): seq<Edge> {
    Filter(es, (e: Edge) => KeepApart(e, s, t))
  }

  /** Under the invariant, an edge in one direction is an edge in the other. */
  lemma {:induction false} SymmetricHas(es: seq<Edge>, a: Vertex, b: Vertex)
    requires Symmetric(es)
    ensures HasEdgeIn(es, a, b) <==> HasEdgeIn(es, b, a)
  {
    if HasEdgeIn(es, a, b) {
      var i :| 0 <= i < |es| && IsEdge(es[i], a, b);
    }
    if HasEdgeIn(es, b, a) {
      var i :| 0 <= i < |es| && IsEdge(es[i], b, a);
    }
  }

  /** A list in which (a, b) is present exactly when (b, a) is satisfies the invariant. */
  lemma {:induction false} SymmetricByPairs(es: seq<Edge>)
    requires forall a, b :: HasEdgeIn(es, a, b) ==> HasEdgeIn(es, b, a)
    ensures Symmetric(es)
  {
    forall i | 0 <= i < |es| ensures HasEdgeIn(es, es[i].target, es[i].source) {
      assert IsEdge(es[i], es[i].source, es[i].target);
    }
  }

  /** `hasEdge` after `addEdge(s, t)`: the pair is joined in both directions exactly when both are present. */
  lemma {:induction false} AddedBothHas(vs: seq<Vertex>, es: seq<Edge>, s: Vertex, t: Vertex, a: Vertex, b: Vertex)
    requires Symmetric(es)
    ensures HasEdgeIn(AddedBoth(vs, es, s, t), a, b) <==>
            HasEdgeIn(es, a, b) || (s in vs && t in vs && ((a == s && b == t) || (a == t && b == s)))
  {
    var r := AddedBoth(vs, es, s, t);
    if r != es {
      assert IsEdge(r[|es|], s, t) && IsEdge(r[|es| + 1], t, s);
      if HasEdgeIn(es, a, b) {
        var i :| 0 <= i < |es| && IsEdge(es[i], a, b);
        assert IsEdge(r[i], a, b);
      }
      if HasEdgeIn(r, a, b) && !((a == s && b == t) || (a == t && b == s)) {
        var i :| 0 <= i < |r| && IsEdge(r[i], a, b);
        assert i < |es| && IsEdge(es[i], a, b);
      }
    } else if s in vs && t in vs && ((a == s && b == t) || (a == t && b == s)) {
      SymmetricHas(es, s, t);
    }
  }

  /** `removeEdge(s, t)` separates `s` and `t` in both directions and leaves every other pair as it was. */
  lemma {:induction false} WithoutBothHas(es: seq<Edge>, s: Vertex, t: Vertex, a: Vertex, b: Vertex)
    ensures HasEdgeIn(WithoutBoth(es, s, t), a, b) <==>
            HasEdgeIn(es, a, b) && !((a == s && b == t) || (a == t && b == s))
  {
    var keep := (e: Edge) => KeepApart(e, s, t);
    FilterHas(es, keep, a, b);
    if HasEdgeIn(es, a, b) && !((a == s && b == t) || (a == t && b == s)) {
      var i :| 0 <= i < |es| && IsEdge(es[i], a, b);
      assert keep(es[i]);
    }
  }

  /** `addEdge` keeps the invariant. */
  lemma {:induction false} AddBothKeeps(vs: seq<Vertex>, es: seq<Edge>, s: Vertex, t: Vertex)
    requires Undirected(vs, es)
    ensures Undirected(vs, AddedBoth(vs, es, s, t))
  {
    var r := AddedBoth(vs, es, s, t);
    forall a, b | HasEdgeIn(r, a, b) ensures HasEdgeIn(r, b, a) {
      AddedBothHas(vs, es, s, t, a, b);
      AddedBothHas(vs, es, s, t, b, a);
      SymmetricHas(es, a, b);
    }
    SymmetricByPairs(r);
  }

  /** `removeEdge` keeps the invariant. */
  lemma {:induction false} RemoveBothKeeps(vs: seq<Vertex>, es: seq<Edge>, s: Vertex, t: Vertex)
    requires Undirected(vs, es)
    ensures Undirected(vs, WithoutBoth(es, s, t))
  {
    var r := WithoutBoth(es, s, t);
    FilterListed(vs, es, (e: Edge) => KeepApart(e, s, t));
    forall a, b | HasEdgeIn(r, a, b) ensures HasEdgeIn(r, b, a) {
      WithoutBothHas(es, s, t, a, b);
      WithoutBothHas(es, s, t, b, a);
      SymmetricHas(es, a, b);
    }
    SymmetricByPairs(r);
  }

  /** `removeVertex` keeps the invariant. */
  lemma {:induction false} RemoveVertexKeepsSymmetric(vs: seq<Vertex>, es: seq<Edge>, v: Vertex)
    requires Undirected(vs, es)
    ensures Undirected(WithoutVertex(vs, v), WithoutIncident(es, v))
  {
    var keepV := OtherThan(v);
    var keepE := NotTouching(v);
    var rv := WithoutVertex(vs, v);
    var r := WithoutIncident(es, v);
    FilterDistinct(vs, keepV);
    forall k | 0 <= k < |r| ensures r[k].source in rv && r[k].target in rv {
      FilterAt(es, keepE, k);
      FilterMembers(vs, keepV, r[k].source);
      FilterMembers(vs, keepV, r[k].target);
    }
    forall a, b | HasEdgeIn(r, a, b) ensures HasEdgeIn(r, b, a) {
      FilterHas(es, keepE, a, b);
      FilterHas(es, keepE, b, a);
      var i :| 0 <= i < |es| && IsEdge(es[i], a, b) && keepE(es[i]);
      assert HasEdgeIn(es, b, a);
      var j :| 0 <= j < |es| && IsEdge(es[j], b, a);
      assert keepE(es[j]);
    }
    SymmetricByPairs(r);
  }

  /** Removing an edge that was just added restores the edge list. */
  lemma {:induction false} RemoveUndoesAddBoth(vs: seq<Vertex>, es: seq<Edge>, s: Vertex, t: Vertex)
    requires !HasEitherIn(es, s, t)
    ensures WithoutBoth(AddedBoth(vs, es, s, t), s, t) == es
  {
    var keep := (e: Edge) => KeepApart(e, s, t);
    forall i | 0 <= i < |es| ensures keep(es[i]) {
      assert !IsEdge(es[i], s, t) && !IsEdge(es[i], t, s);
    }
    FilterAll(es, keep);
    if s in vs && t in vs {
      FilterAppend(es, NewPlainEdge(s, t), keep);
      assert es + [NewPlainEdge(s, t), NewPlainEdge(t, s)] == (es + [NewPlainEdge(s, t)]) + [NewPlainEdge(t, s)];
      FilterAppend(es + [NewPlainEdge(s, t)], NewPlainEdge(t, s), keep);
    }
  }

  /** Re-adding an existing edge, in either orientation, changes nothing. */
  lemma {:induction false} ReAddIsNoOp(vs: seq<Vertex>, es: seq<Edge>, s: Vertex, t: Vertex)
    requires Symmetric(es)
    ensures AddedBoth(vs, AddedBoth(vs, es, s, t), s, t) == AddedBoth(vs, es, s, t)
    ensures AddedBoth(vs, AddedBoth(vs, es, s, t), t, s) == AddedBoth(vs, es, s, t)
  {
    AddedBothHas(vs, es, s, t, s, t);
  }

  /** A self-loop is stored twice: `addEdge(v, v)` appends (v, v) and then (v, v) again. */
  lemma SelfLoopStoredTwice(v: Vertex)
    ensures AddedBoth([v], [], v, v) == [NewPlainEdge(v, v), NewPlainEdge(v, v)]
    ensures Targets(AddedBoth([v], [], v, v), v) == [v, v]
  {
    var e := NewPlainEdge(v, v);
    assert AddedBoth([v], [], v, v) == [e] + [e];
    TargetsAppend([], e, v);
    assert [] + [e] == [e];
    TargetsAppend([e], e, v);
  }

  /** The undirected container. */
  class UndirectedGraph {
    var vertices: seq<Vertex>
    var edges: seq<Edge>

    ghost predicate Valid()
      reads this
    {
      Undirected(vertices, edges)
    }

    constructor ()
      ensures Valid() && vertices == [] && edges == []
    {
      vertices := [];
      edges := [];
    }

    /** `hasVertex`, inherited from the base container. */
    predicate HasVertex(v: Vertex)
      reads this
    {
      v in vertices
    }

    /** `hasEdge`: an edge in either direction. */
    predicate HasEdge(source: Vertex, target: Vertex)
      reads this
    {
      HasEitherIn(edges, source, target)
    }

    /** `addVertex`, inherited from the base container. */
    method AddVertex(v: Vertex)
      requires Valid()
      modifies this`vertices
      ensures Valid() && vertices == AddedVertex(old(vertices), v)
    {
      if !HasVertex(v) {
        vertices := vertices + [v];
      }
    }

    /** `removeVertex`, inherited from the base container. */
    method RemoveVertex(v: Vertex)
      requires Valid()
      modifies this
      ensures Valid()
      ensures old(HasVertex(v)) ==> vertices == WithoutVertex(old(vertices), v) && edges == WithoutIncident(old(edges), v)
      ensures !old(HasVertex(v)) ==> vertices == old(vertices) && edges == old(edges)
    {
      if !HasVertex(v) {
        return;
      }
      RemoveVertexKeepsSymmetric(vertices, edges, v);
      vertices := WithoutVertex(vertices, v);
      edges := WithoutIncident(edges, v);
    }

    /** `addEdge`: both directions, only when both vertices are present and neither direction exists. */
    method AddEdge(source: Vertex, target: Vertex)
      requires Valid()
      modifies this`edges
      ensures Valid() && edges == AddedBoth(vertices, old(edges), source, target)
      ensures HasEdge(source, target) <==> HasVertex(source) && HasVertex(target)
    {
      AddBothKeeps(vertices, edges, source, target);
      AddedBothHas(vertices, edges, source, target, source, target);
      AddedBothHas(vertices, edges, source, target, target, source);
      if HasVertex(source) && HasVertex(target) && !HasEdge(source, target) {
        edges := edges + [NewPlainEdge(source, target), NewPlainEdge(target, source)];
      } else {
        assert HasVertex(source) && HasVertex(target) ==> HasEdge(source, target);
        assert HasEdge(source, target) ==> HasVertex(source) && HasVertex(target) by {
          if HasEdgeIn(edges, source, target) {
            var i :| 0 <= i < |edges| && IsEdge(edges[i], source, target);
          }
          if HasEdgeIn(edges, target, source) {
            var i :| 0 <= i < |edges| && IsEdge(edges[i], target, source);
          }
        }
      }
    }

    /** `removeEdge`: both directions disappear. */
    method RemoveEdge(source: Vertex, target: Vertex)
      requires Valid()
      modifies this`edges
      ensures Valid() && edges == WithoutBoth(old(edges), source, target)
      ensures !HasEdge(source, target) && !HasEdge(target, source)
    {
      RemoveBothKeeps(vertices, edges, source, target);
      WithoutBothHas(edges, source, target, source, target);
      WithoutBothHas(edges, source, target, target, source);
      edges := WithoutBoth(edges, source, target);
    }

    /** `getNeighborsIterator`: empty for an absent vertex, otherwise the targets of the edges leaving it. */
    method GetNeighbors(v: Vertex) returns (neighbors: seq<Vertex>)
      requires Valid()
      ensures neighbors == if HasVertex(v) then Targets(edges, v) else []
      ensures forall w :: w in neighbors <==> HasVertex(v) && HasEdge(v, w)
    {
      neighbors := [];
      if HasVertex(v) {
        var i := 0;
        while i < |edges|
          invariant 0 <= i <= |edges|
          invariant neighbors == Targets(edges[..i], v)
        {
          TargetsAppend(edges[..i], edges[i], v);
          assert edges[..i + 1] == edges[..i] + [edges[i]];
          if edges[i].source == v {
            neighbors := neighbors + [edges[i].target];
          }
          i := i + 1;
        }
        assert edges[..i] == edges;
      }
      forall w ensures w in neighbors <==> HasVertex(v) && HasEdge(v, w) {
        TargetsMembers(edges, v, w);
        SymmetricHas(edges, v, w);
      }
    }

    /** `getFilteredNeighborsIterator`: empty for an absent vertex, otherwise the neighbours passing `keep`. */
    method GetFilteredNeighbors(v: Vertex, keep: Vertex -> bool) returns (neighbors: seq<Vertex>)
      ensures neighbors == if HasVertex(v) then Filter(Targets(edges, v), keep) else []
    {
      neighbors := [];
      if HasVertex(v) {
        var i := 0;
        while i < |edges|
          invariant 0 <= i <= |edges|
          invariant neighbors == FilteredTargets(edges[..i], v, keep)
        {
          FilteredTargetsAppend(edges[..i], edges[i], v, keep);
          assert edges[..i + 1] == edges[..i] + [edges[i]];
          if edges[i].source == v && keep(edges[i].target) {
            neighbors := neighbors + [edges[i].target];
          }
          i := i + 1;
        }
        assert edges[..i] == edges;
        FilteredTargetsFilter(edges, v, keep);
      }
    }
  }
}
