// The adjacency-list container (src/graph/AdjacencyListGraph.cpp): besides the base vectors
// it keeps a hash map from each vertex to the list of its out-neighbours. `hasVertex` and
// `hasEdge` consult only the map. Reading the map with `operator[]` inserts an empty list,
// which the model writes out as `WithVertex`.

module AdjacencyListGraphs {
  import opened GraphTypes
  import opened GraphBase

  /** `erase(remove(list, x))`: the list without `x`, in order. */
  function Remove(xs: seq<Vertex>, x: Vertex): seq<Vertex> {
    Filter(xs, OtherThan(x))
  }

  /** `adjacencyList[v]` as a read: the list of `v`, or the empty list `operator[]` creates. */
  function ListOf(adj: map<Vertex, seq<Vertex>>, v: Vertex): seq<Vertex> {
    if v in adj then adj[v] else []
  }

  /** `hasEdge`: `t` is in the list of `s`, and false when `s` has no list. */
  predicate Listed(adj: map<Vertex, seq<Vertex>>, s: Vertex, t: Vertex) {
    s in adj && t in adj[s]
  }

  /** Every listed neighbour has a list of its own. */
  ghost predicate Closed(adj: map<Vertex, seq<Vertex>>) {
    forall u, w :: u in adj && w in adj[u] ==> w in adj
  }

  /** No list names a neighbour twice. */
  ghost predicate ListsDistinct(adj: map<Vertex, seq<Vertex>>) {
    forall u :: u in adj ==> DistinctVertices(adj[u])
  }

  /** The edge vector and the lists describe the same pairs. */
  ghost predicate Agrees(es: seq<Edge>, adj: map<Vertex, seq<Vertex>>) {
    forall s, t :: HasEdgeIn(es, s, t) <==> Listed(adj, s, t)
  }

  /**
   * The invariant of the container: the vector has no duplicate, every vector entry has a list,
   * the lists name only vertices that have a list, no list repeats a neighbour, and the edge
   * vector agrees with the lists.
   */
  ghost predicate Consistent(vs: seq<Vertex>, adj: map<Vertex, seq<Vertex>>, es: seq<Edge>) {
    DistinctVertices(vs) && (forall x :: x in vs ==> x in adj) &&
    Closed(adj) && ListsDistinct(adj) && Agrees(es, adj)
  }

  /** `adjacencyList[v]` as an lvalue: give `v` an empty list when it has none. */
  function WithVertex(adj: map<Vertex, seq<Vertex>>, v: Vertex): map<Vertex, seq<Vertex>> {
    if v in adj then adj else adj[v := []]
  }

  /** `addVertex` on the vector: append `v` only when it has no list. */
  function VerticesAfterAdd(vs: seq<Vertex>, adj: map<Vertex, seq<Vertex>>, v: Vertex): seq<Vertex> {
    if v in adj then vs else vs + [v]
  }

  /** The guard of `addEdge`: both endpoints have lists and `t` is not yet in the list of `s`. */
  predicate CanAdd(adj: map<Vertex, seq<Vertex>>, s: Vertex, t: Vertex) {
    s in adj && t in adj && t !in adj[s]
  }

  /** `addEdge` on the map: push `t` onto the list of `s` when the guard holds. */
  function WithListedEdge(adj: map<Vertex, seq<Vertex>>, s: Vertex, t: Vertex): map<Vertex, seq<Vertex>> {
    if CanAdd(adj, s, t) then adj[s := adj[s] + [t]] else adj
  }

  /** `addEdge` on the vector: append `Edge(s, t)` when the guard holds. */
  function EdgesAfterAdd(adj: map<Vertex, seq<Vertex>>, es: seq<Edge>, s: Vertex, t: Vertex): seq<Edge> {
    if CanAdd(adj, s, t) then es + [NewPlainEdge(s, t)] else es
  }

  /** `removeEdge` on the map: strip `t` from the list of `s`, creating that list if it is missing. */
  function WithoutListedEdge(adj: map<Vertex, seq<Vertex>>, s: Vertex, t: Vertex): map<Vertex, seq<Vertex>> {
    adj[s := Remove(ListOf(adj, s), t)]
  }

  /** `removeVertex` on the map, as intended: drop the list of `v` and strip `v` from every other list. */
  function WithoutListedVertex(adj: map<Vertex, seq<Vertex>>, v: Vertex): map<Vertex, seq<Vertex>> {
    map u | u in adj && u != v :: Remove(adj[u], v)
  }

  // ----- Lemmas about the list operations -----

  /** `Remove` keeps exactly the other elements. */
  lemma RemoveMembers(xs: seq<Vertex>, x: Vertex, y: Vertex)
    ensures y in Remove(xs, x) <==> y in xs && y != x
  {
    FilterMembers(xs, OtherThan(x), y);
  }

  /** Removing an element that is not there changes nothing. */
  lemma RemoveAbsent(xs: seq<Vertex>, x: Vertex)
    requires x !in xs
    ensures Remove(xs, x) == xs
  {
    FilterAll(xs, OtherThan(x));
  }

  /** `addVertex` keeps the invariant and gives `v` a list; every other list is unchanged. */
  lemma {:induction false} AddVertexKeepsLists(vs: seq<Vertex>, adj: map<Vertex, seq<Vertex>>, es: seq<Edge>, v: Vertex)
    requires Consistent(vs, adj, es)
    ensures Consistent(VerticesAfterAdd(vs, adj, v), WithVertex(adj, v), es)
    ensures v in WithVertex(adj, v) && (v !in adj ==> v in VerticesAfterAdd(vs, adj, v))
    ensures forall a, b :: Listed(WithVertex(adj, v), a, b) <==> Listed(adj, a, b)
  {
    TouchKeepsLists(vs, adj, es, v);
    var adj' := WithVertex(adj, v);
    var vs' := VerticesAfterAdd(vs, adj, v);
    if v !in adj {
      assert v !in vs;
      assert forall i :: 0 <= i < |vs| ==> vs'[i] == vs[i];
      assert vs'[|vs|] == v;
      assert DistinctVertices(vs');
    }
  }

  /** Reading an unknown vertex through `operator[]` keeps the invariant and adds no pair. */
  lemma {:induction false} TouchKeepsLists(vs: seq<Vertex>, adj: map<Vertex, seq<Vertex>>, es: seq<Edge>, v: Vertex)
    requires Consistent(vs, adj, es)
    ensures Consistent(vs, WithVertex(adj, v), es)
    ensures forall a, b :: Listed(WithVertex(adj, v), a, b) <==> Listed(adj, a, b)
  {
    var adj' := WithVertex(adj, v);
    assert forall u :: u in adj' <==> u in adj || u == v;
    assert forall u :: u in adj ==> adj'[u] == adj[u];
    assert v in adj' && (v !in adj ==> adj'[v] == []);
  }

  /** `addEdge` keeps the invariant; it adds the pair (s, t) exactly when the guard holds. */
  lemma {:induction false} AddEdgeKeepsLists(vs: seq<Vertex>, adj: map<Vertex, seq<Vertex>>, es: seq<Edge>, s: Vertex, t: Vertex)
    requires Consistent(vs, adj, es)
    ensures Consistent(vs, WithListedEdge(adj, s, t), EdgesAfterAdd(adj, es, s, t))
    ensures forall a, b :: Listed(WithListedEdge(adj, s, t), a, b) <==>
                           Listed(adj, a, b) || (a == s && b == t && s in adj && t in adj)
  {
    if CanAdd(adj, s, t) {
      var adj' := WithListedEdge(adj, s, t);
      var es' := EdgesAfterAdd(adj, es, s, t);
      var l := adj[s];
      assert adj'[s] == l + [t];
      assert forall w :: w in adj'[s] <==> w in l || w == t;
      assert DistinctVertices(l + [t]) by {
        forall i, j | 0 <= i < j < |l| + 1 ensures (l + [t])[i] != (l + [t])[j] {
          if j == |l| { assert (l + [t])[i] == l[i]; assert l[i] in l; }
        }
      }
      forall a, b ensures HasEdgeIn(es', a, b) <==> Listed(adj', a, b) {
        if a == s && b == t {
          assert IsEdge(es'[|es|], a, b);
        } else {
          if HasEdgeIn(es', a, b) {
            var i :| 0 <= i < |es'| && IsEdge(es'[i], a, b);
            assert i < |es| && es'[i] == es[i];
          }
          if HasEdgeIn(es, a, b) {
            var i :| 0 <= i < |es| && IsEdge(es[i], a, b);
            assert es'[i] == es[i];
          }
        }
      }
    }
  }

  /** `removeEdge` keeps the invariant; it removes the pair (s, t) and no other, and leaves `s` with a list. */
  lemma {:induction false} RemoveEdgeKeepsLists(vs: seq<Vertex>, adj: map<Vertex, seq<Vertex>>, es: seq<Edge>, s: Vertex, t: Vertex)
    requires Consistent(vs, adj, es)
    ensures Consistent(vs, WithoutListedEdge(adj, s, t), WithoutEdge(es, s, t))
    ensures s in WithoutListedEdge(adj, s, t)
    ensures forall a, b :: Listed(WithoutListedEdge(adj, s, t), a, b) <==> Listed(adj, a, b) && !(a == s && b == t)
  {
    var adj' := WithoutListedEdge(adj, s, t);
    var l := ListOf(adj, s);
    FilterDistinct(l, OtherThan(t));
    forall w ensures w in adj'[s] <==> w in l && w != t {
      RemoveMembers(l, t, w);
    }
    forall a, b ensures HasEdgeIn(WithoutEdge(es, s, t), a, b) <==> Listed(adj', a, b) {
      WithoutEdgeHas(es, s, t, a, b);
    }
  }

  /** The intended `removeVertex` keeps the invariant; `v` loses its list and every pair touching it. */
  lemma {:induction false} RemoveVertexKeepsLists(vs: seq<Vertex>, adj: map<Vertex, seq<Vertex>>, es: seq<Edge>, v: Vertex)
    requires Consistent(vs, adj, es)
    ensures Consistent(WithoutVertex(vs, v), WithoutListedVertex(adj, v), WithoutIncident(es, v))
    ensures v !in WithoutListedVertex(adj, v)
    ensures forall u :: u in WithoutListedVertex(adj, v) <==> u in adj && u != v
    ensures forall a, b :: Listed(WithoutListedVertex(adj, v), a, b) <==> Listed(adj, a, b) && a != v && b != v
  {
    var adj' := WithoutListedVertex(adj, v);
    var vs' := WithoutVertex(vs, v);
    FilterDistinct(vs, OtherThan(v));
    forall x | x in vs' ensures x in adj' {
      FilterMembers(vs, OtherThan(v), x);
    }
    forall u, w | u in adj' ensures w in adj'[u] <==> w in adj[u] && w != v {
      RemoveMembers(adj[u], v, w);
    }
    forall u | u in adj' ensures DistinctVertices(adj'[u]) {
      FilterDistinct(adj[u], OtherThan(v));
    }
    RemoveVertexIncident(es, v);
  }

  /** Dropping the edges touching `v` removes exactly the pairs touching `v`. */
  lemma {:induction false} RemoveVertexIncident(es: seq<Edge>, v: Vertex)
    ensures forall a, b :: HasEdgeIn(WithoutIncident(es, v), a, b) <==> HasEdgeIn(es, a, b) && a != v && b != v
  {
    forall a, b ensures HasEdgeIn(WithoutIncident(es, v), a, b) <==> HasEdgeIn(es, a, b) && a != v && b != v {
      FilterHas(es, NotTouching(v), a, b);
    }
  }

  /** `removeEdge` undoes an `addEdge` that added something, on the map and on the vector. */
  lemma {:induction false} RemoveUndoesAddListed(vs: seq<Vertex>, adj: map<Vertex, seq<Vertex>>, es: seq<Edge>, s: Vertex, t: Vertex)
    requires Consistent(vs, adj, es) && CanAdd(adj, s, t)
    ensures WithoutListedEdge(WithListedEdge(adj, s, t), s, t) == adj
    ensures WithoutEdge(EdgesAfterAdd(adj, es, s, t), s, t) == es
  {
    assert WithoutListedEdge(WithListedEdge(adj, s, t), s, t) == adj by {
      var l := adj[s];
      RemoveAbsent(l, t);
      FilterAppend(l, t, OtherThan(t));
      assert Remove(l + [t], t) == l;
      var adj2 := WithListedEdge(adj, s, t);
      assert adj2 == adj[s := l + [t]];
      assert ListOf(adj2, s) == l + [t];
      assert WithoutListedEdge(adj2, s, t) == adj2[s := l];
      assert adj2[s := l] == adj;
    }
    assert WithoutEdge(EdgesAfterAdd(adj, es, s, t), s, t) == es by {
      assert !HasEdgeIn(es, s, t);
      RemoveUndoesAdd([s, t], es, s, t);
      assert AddedEdge([s, t], es, s, t) == EdgesAfterAdd(adj, es, s, t);
    }
  }

  /** A second `addEdge(s, t)` changes nothing. */
  lemma AddEdgeIdempotentListed(adj: map<Vertex, seq<Vertex>>, es: seq<Edge>, s: Vertex, t: Vertex)
    ensures WithListedEdge(WithListedEdge(adj, s, t), s, t) == WithListedEdge(adj, s, t)
    ensures EdgesAfterAdd(WithListedEdge(adj, s, t), EdgesAfterAdd(adj, es, s, t), s, t) == EdgesAfterAdd(adj, es, s, t)
  {
    if CanAdd(adj, s, t) {
      assert t in WithListedEdge(adj, s, t)[s];
    }
  }

  /** Under the invariant a list holds exactly the targets of the edges leaving its vertex. */
  lemma ListIsTargets(adj: map<Vertex, seq<Vertex>>, es: seq<Edge>, v: Vertex, w: Vertex)
    requires Agrees(es, adj)
    ensures w in ListOf(adj, v) <==> w in Targets(es, v)
  {
    TargetsMembers(es, v, w);
  }

  class AdjacencyListGraph {
    var vertices: seq<Vertex>
    var adjacencyList: map<Vertex, seq<Vertex>>
    var edges: seq<Edge>

    ghost predicate Valid()
      reads this
    {
      Consistent(vertices, adjacencyList, edges)
    }

    constructor ()
      ensures Valid() && vertices == [] && adjacencyList == map[] && edges == []
    {
      vertices := [];
      adjacencyList := map[];
      edges := [];
    }

    /** `hasVertex`: the vertex has a list. */
    predicate HasVertex(v: Vertex)
      reads this
    {
      v in adjacencyList
    }

    /** `hasEdge`: the target is in the source's list. */
    predicate HasEdge(source: Vertex, target: Vertex)
      reads this
    {
      Listed(adjacencyList, source, target)
    }

    /** `addVertex`: when `v` has no list, append it and give it an empty one. */
    method AddVertex(v: Vertex)
      requires Valid()
      modifies this`vertices, this`adjacencyList
      ensures Valid() && HasVertex(v)
      ensures vertices == VerticesAfterAdd(old(vertices), old(adjacencyList), v)
      ensures adjacencyList == WithVertex(old(adjacencyList), v)
    {
      AddVertexKeepsLists(vertices, adjacencyList, edges, v);
      if !HasVertex(v) {
        vertices := vertices + [v];
        adjacencyList := adjacencyList[v := []];
      }
      assert adjacencyList == WithVertex(old(adjacencyList), v);
    }

    /** `addEdge`: when both ends have lists and `target` is not listed, append the edge and list it. */
    method AddEdge(source: Vertex, target: Vertex)
      requires Valid()
      modifies this`edges, this`adjacencyList
      ensures Valid()
      ensures edges == EdgesAfterAdd(old(adjacencyList), old(edges), source, target)
      ensures adjacencyList == WithListedEdge(old(adjacencyList), source, target)
    {
      AddEdgeKeepsLists(vertices, adjacencyList, edges, source, target);
      if HasVertex(source) && HasVertex(target) && !HasEdge(source, target) {
        edges := edges + [NewPlainEdge(source, target)];
        adjacencyList := adjacencyList[source := adjacencyList[source] + [target]];
      }
    }

    /** `removeEdge`: delete the matching edges and strip `target` from the source's list. */
    method RemoveEdge(source: Vertex, target: Vertex)
      requires Valid()
      modifies this`edges, this`adjacencyList
      ensures Valid() && HasVertex(source) && !HasEdge(source, target)
      ensures edges == WithoutEdge(old(edges), source, target)
      ensures adjacencyList == WithoutListedEdge(old(adjacencyList), source, target)
    {
      RemoveEdgeKeepsLists(vertices, adjacencyList, edges, source, target);
      edges := WithoutEdge(edges, source, target);
      var neighbors := if source in adjacencyList then adjacencyList[source] else [];
      adjacencyList := adjacencyList[source := Remove(neighbors, target)];
    }

    /**
     * `removeVertex` with the loop over the map stripping `v` (the as-written loop strips each
     * key from its own list; see module AdjacencyListAsWritten) and with the incident edges
     * dropped from the vector as the base container does.
     */
    method RemoveVertex(v: Vertex)
      requires Valid()
      modifies this
      ensures Valid() && !HasVertex(v)
      ensures vertices == WithoutVertex(old(vertices), v)
      ensures adjacencyList == WithoutListedVertex(old(adjacencyList), v)
      ensures edges == WithoutIncident(old(edges), v)
    {
      RemoveVertexKeepsLists(vertices, adjacencyList, edges, v);
      ghost var goal := WithoutListedVertex(adjacencyList, v);
      vertices := WithoutVertex(vertices, v);
      edges := WithoutIncident(edges, v);
      var lists := adjacencyList - {v};
      ghost var before := lists;
      var todo := lists.Keys;
      while todo != {}
        invariant todo <= lists.Keys == before.Keys == goal.Keys
        invariant forall u :: u in todo ==> lists[u] == before[u]
        invariant forall u :: u in lists && u !in todo ==> lists[u] == goal[u]
        decreases todo
      {
        var u :| u in todo;
        lists := lists[u := Remove(lists[u], v)];
        todo := todo - {u};
      }
      assert lists == goal;
      adjacencyList := lists;
    }

    /** `getAdjacencyVertices`: a copy of the list of `v`; `operator[]` gives an unknown `v` an empty list. */
    method GetAdjacencyVertices(v: Vertex) returns (neighbors: seq<Vertex>)
      requires Valid()
      modifies this`adjacencyList
      ensures Valid() && HasVertex(v)
      ensures adjacencyList == WithVertex(old(adjacencyList), v)
      ensures neighbors == ListOf(old(adjacencyList), v)
      ensures forall w :: w in neighbors <==> HasEdgeIn(edges, v, w)
    {
      TouchKeepsLists(vertices, adjacencyList, edges, v);
      adjacencyList := WithVertex(adjacencyList, v);
      neighbors := adjacencyList[v];
    }

    /** `getNeighborsIterator`: the list of `v`, read through `operator[]`. */
    method GetNeighbors(v: Vertex) returns (neighbors: seq<Vertex>)
      requires Valid()
      modifies this`adjacencyList
      ensures Valid() && HasVertex(v)
      ensures adjacencyList == WithVertex(old(adjacencyList), v)
      ensures neighbors == ListOf(old(adjacencyList), v)
      ensures forall w :: w in neighbors <==> w in Targets(edges, v)
    {
      neighbors := GetAdjacencyVertices(v);
      forall w ensures w in neighbors <==> w in Targets(edges, v) {
        TargetsMembers(edges, v, w);
      }
    }

    /** `getFilteredNeighborsIterator`: the members of the list of `v` that pass `keep`, in list order. */
    method GetFilteredNeighbors(v: Vertex, keep: Vertex -> bool) returns (neighbors: seq<Vertex>)
      requires Valid()
      modifies this`adjacencyList
      ensures Valid() && HasVertex(v)
      ensures adjacencyList == WithVertex(old(adjacencyList), v)
      ensures neighbors == Filter(ListOf(old(adjacencyList), v), keep)
    {
      TouchKeepsLists(vertices, adjacencyList, edges, v);
      adjacencyList := WithVertex(adjacencyList, v);
      var list := adjacencyList[v];
      neighbors := [];
      var i := 0;
      while i < |list|
        invariant 0 <= i <= |list|
        invariant neighbors == Filter(list[..i], keep)
        modifies {}
      {
        FilterAppend(list[..i], list[i], keep);
        assert list[..i + 1] == list[..i] + [list[i]];
        if keep(list[i]) {
          neighbors := neighbors + [list[i]];
        }
        i := i + 1;
      }
      assert list[..i] == list;
    }
  }
}
