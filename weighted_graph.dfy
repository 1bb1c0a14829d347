// The weighted container (src/graph/WeightedGraph.cpp): the base vectors over weighted edges,
// with weight lookup and update by (source, target). Its addVertex, removeVertex, removeEdge,
// hasVertex and hasEdge are declared in include/graph/WeightedGraph.h but have no body in the
// .cpp file; the model gives them the base container's behaviour.

module WeightedGraphs {
  import opened GraphTypes
  import opened GraphBase

  /** A weighted edge seen as a plain edge (the `Edge` base of `WeightedEdge`). */
  function AsEdge(w: WeightedEdge): Edge {
    Edge(w.source, w.target, w.capacity, w.flow)
  }

  /** The edge vector seen as plain edges. */
  function Plain(ws: seq<WeightedEdge>): seq<Edge> {
    seq(|ws|, i requires 0 <= i < |ws| => AsEdge(ws[i]))
  }

  /** A test on plain edges applied to weighted edges. */
  function Lift(keep: Edge -> bool): WeightedEdge -> bool {
    (w: WeightedEdge) => keep(AsEdge(w))
  }

  /** The position of the first edge from `s` to `t`: the iterator of `find_if`. */
  function FindEdge(ws: seq<WeightedEdge>, s: Vertex, t: Vertex): (r: Option<nat>)
    ensures r.Some? ==> r.value < |ws| && IsEdge(AsEdge(ws[r.value]), s, t)
    ensures r.Some? ==> forall j :: 0 <= j < r.value ==> !IsEdge(AsEdge(ws[j]), s, t)
    ensures r.None? <==> !HasEdgeIn(Plain(ws), s, t)
    decreases |ws|
  {
    if ws == [] then None
    else if IsEdge(AsEdge(ws[0]), s, t) then
      assert IsEdge(Plain(ws)[0], s, t);
      Some(0)
    else
      var rest := FindEdge(ws[1..], s, t);
      assert Plain(ws[1..]) == Plain(ws)[1..];
      if rest.None? then
        assert forall j :: 0 <= j < |ws| ==> !IsEdge(AsEdge(ws[j]), s, t) by {
          forall j | 0 <= j < |ws| ensures !IsEdge(AsEdge(ws[j]), s, t) {
            if j > 0 { assert Plain(ws[1..])[j - 1] == AsEdge(ws[j]); }
          }
        }
        None
      else
        assert IsEdge(Plain(ws)[rest.value + 1], s, t);
        Some(rest.value + 1)
  }

  /** `getEdgeWeight`: the weight of the first (s, t) edge, or `out_of_range` when there is none. */
  function EdgeWeight(ws: seq<WeightedEdge>, s: Vertex, t: Vertex): (r: Result<int>)
    ensures r.Err? <==> !HasEdgeIn(Plain(ws), s, t)
    ensures r.Ok? ==> exists i :: 0 <= i < |ws| && IsEdge(AsEdge(ws[i]), s, t) && ws[i].weight == r.value &&
                              forall j :: 0 <= j < i ==> !IsEdge(AsEdge(ws[j]), s, t)
  {
    match FindEdge(ws, s, t)
    case None => Err("Edge not found")
    case Some(i) => Ok(ws[i].weight)
  }

  /** `setEdgeWeight` on a present edge: the first (s, t) edge gets weight `w`. */
  function WithWeight(ws: seq<WeightedEdge>, s: Vertex, t: Vertex, w: int): seq<WeightedEdge> {
    match FindEdge(ws, s, t)
    case None => ws
    case Some(i) => ws[i := ws[i].(weight := w)]
  }

  /** `addEdge`: append (s, t, weight) with capacity 0 only between present vertices and when absent. */
  function AddedWeighted(vs: seq<Vertex>, ws: seq<WeightedEdge>, s: Vertex, t: Vertex, w: int): seq<WeightedEdge> {
    if s in vs && t in vs && !HasEdgeIn(Plain(ws), s, t) then ws + [NewWeightedEdge(s, t, w)] else ws
  }

  /** Filtering weighted edges by a test on their plain edge filters the plain edges. */
  lemma {:induction false} PlainFilter(ws: seq<WeightedEdge>, keep: Edge -> bool)
    ensures Plain(Filter(ws, Lift(keep))) == Filter(Plain(ws), keep)
    decreases |ws|
  {
    if ws != [] {
      var init := ws[..|ws| - 1];
      PlainFilter(init, keep);
      assert Plain(ws)[..|ws| - 1] == Plain(init);
      if Lift(keep)(ws[|ws| - 1]) {
        PlainAppend(Filter(init, Lift(keep)), ws[|ws| - 1]);
      }
    }
  }

  lemma PlainAppend(ws: seq<WeightedEdge>, w: WeightedEdge)
    ensures Plain(ws + [w]) == Plain(ws) + [AsEdge(w)]
  {
    assert Plain(ws + [w]) == Plain(ws) + [AsEdge(w)];
  }

  /** `setEdgeWeight` changes only the weight: the plain edges are the same. */
  lemma PlainWithWeight(ws: seq<WeightedEdge>, s: Vertex, t: Vertex, w: int)
    ensures Plain(WithWeight(ws, s, t, w)) == Plain(ws)
  {
  }

  /** After `setEdgeWeight(s, t, w)` the weight of (s, t) reads back as `w`; every other pair reads as before. */
  lemma {:induction false} SetThenGet(ws: seq<WeightedEdge>, s: Vertex, t: Vertex, w: int, a: Vertex, b: Vertex)
    requires HasEdgeIn(Plain(ws), s, t)
    ensures EdgeWeight(WithWeight(ws, s, t, w), s, t) == Ok(w)
    ensures !(a == s && b == t) ==> EdgeWeight(WithWeight(ws, s, t, w), a, b) == EdgeWeight(ws, a, b)
  {
    var i := FindEdge(ws, s, t).value;
    var r := WithWeight(ws, s, t, w);
    assert r == ws[i := ws[i].(weight := w)];
    PlainWithWeight(ws, s, t, w);
    FindSame(ws, r, s, t);
    if !(a == s && b == t) {
      FindSame(ws, r, a, b);
      var f := FindEdge(ws, a, b);
      if f.Some? {
        assert f.value != i;
      }
    }
  }

  /** Two edge vectors with the same plain edges find the same position. */
  lemma {:induction false} FindSame(ws: seq<WeightedEdge>, us: seq<WeightedEdge>, s: Vertex, t: Vertex)
    requires Plain(ws) == Plain(us)
    ensures FindEdge(ws, s, t) == FindEdge(us, s, t)
    decreases |ws|
  {
    assert |ws| == |Plain(ws)| == |us|;
    if ws != [] {
      assert AsEdge(ws[0]) == Plain(ws)[0] == AsEdge(us[0]);
      assert Plain(ws[1..]) == Plain(ws)[1..] && Plain(us[1..]) == Plain(us)[1..];
      FindSame(ws[1..], us[1..], s, t);
    }
  }

  /** After adding a new edge, its weight reads back; re-adding an existing pair keeps the original weight. */
  lemma {:induction false} AddThenGet(vs: seq<Vertex>, ws: seq<WeightedEdge>, s: Vertex, t: Vertex, w: int)
    requires s in vs && t in vs
    ensures !HasEdgeIn(Plain(ws), s, t) ==> EdgeWeight(AddedWeighted(vs, ws, s, t, w), s, t) == Ok(w)
    ensures HasEdgeIn(Plain(ws), s, t) ==> EdgeWeight(AddedWeighted(vs, ws, s, t, w), s, t) == EdgeWeight(ws, s, t)
  {
    if !HasEdgeIn(Plain(ws), s, t) {
      var r := AddedWeighted(vs, ws, s, t, w);
      PlainAppend(ws, NewWeightedEdge(s, t, w));
      var f := FindEdge(r, s, t);
      assert IsEdge(AsEdge(r[|ws|]), s, t);
      assert IsEdge(Plain(r)[|ws|], s, t);
      forall j | 0 <= j < |ws| ensures !IsEdge(AsEdge(r[j]), s, t) {
        assert Plain(ws)[j] == AsEdge(ws[j]);
      }
      assert f == Some(|ws|);
    }
  }

  /** Edges created by the weighted container carry capacity 0 and no flow. */
  lemma {:induction false} AddedCapacityZero(vs: seq<Vertex>, ws: seq<WeightedEdge>, s: Vertex, t: Vertex, w: int)
    requires forall i :: 0 <= i < |ws| ==> ws[i].capacity == 0 && ws[i].flow == 0
    ensures var r := AddedWeighted(vs, ws, s, t, w);
            forall i :: 0 <= i < |r| ==> r[i].capacity == 0 && r[i].flow == 0
  {
  }

  class WeightedGraph {
    var vertices: seq<Vertex>
    var edges: seq<WeightedEdge>

    ghost predicate Valid()
      reads this
    {
      WellFormed(vertices, Plain(edges))
    }

    constructor ()
      ensures Valid() && vertices == [] && edges == []
    {
      vertices := [];
      edges := [];
    }

    predicate HasVertex(v: Vertex)
      reads this
    {
      v in vertices
    }

    predicate HasEdge(source: Vertex, target: Vertex)
      reads this
    {
      HasEdgeIn(Plain(edges), source, target)
    }

    /** `getEdgeWeight`. */
    function GetEdgeWeight(source: Vertex, target: Vertex): (r: Result<int>)
      reads this
      ensures r.Err? <==> !HasEdge(source, target)
    {
      EdgeWeight(edges, source, target)
    }

    method AddVertex(v: Vertex)
      requires Valid()
      modifies this`vertices
      ensures Valid() && vertices == AddedVertex(old(vertices), v)
    {
      AddVertexKeeps(vertices, Plain(edges), v);
      if !HasVertex(v) {
        vertices := vertices + [v];
      }
    }

    method RemoveVertex(v: Vertex)
      requires Valid()
      modifies this
      ensures Valid()
      ensures old(HasVertex(v)) ==>
        vertices == WithoutVertex(old(vertices), v) &&
        Plain(edges) == WithoutIncident(Plain(old(edges)), v) &&
        edges == Filter(old(edges), Lift(NotTouching(v)))
      ensures !old(HasVertex(v)) ==> vertices == old(vertices) && edges == old(edges)
    {
      if !HasVertex(v) {
        return;
      }
      RemoveVertexKeeps(vertices, Plain(edges), v);
      PlainFilter(edges, NotTouching(v));
      vertices := WithoutVertex(vertices, v);
      edges := Filter(edges, Lift(NotTouching(v)));
    }

    /** `addEdge(source, target, weight)`. */
    method AddEdge(source: Vertex, target: Vertex, weight: int)
      requires Valid()
      modifies this`edges
      ensures Valid() && edges == AddedWeighted(vertices, old(edges), source, target, weight)
    {
      AddEdgeKeeps(vertices, Plain(edges), source, target);
      if HasVertex(source) && HasVertex(target) && !HasEdge(source, target) {
        PlainAppend(edges, NewWeightedEdge(source, target, weight));
        edges := edges + [NewWeightedEdge(source, target, weight)];
      }
    }

    method RemoveEdge(source: Vertex, target: Vertex)
      requires Valid()
      modifies this`edges
      ensures Valid() && Plain(edges) == WithoutEdge(Plain(old(edges)), source, target)
      ensures edges == Filter(old(edges), Lift(NotEdge(source, target)))
    {
      RemoveEdgeKeeps(vertices, Plain(edges), source, target);
      PlainFilter(edges, NotEdge(source, target));
      edges := Filter(edges, Lift(NotEdge(source, target)));
    }

    /** `setEdgeWeight`: change the weight of the first (source, target) edge; `out_of_range` when there is none. */
    method SetEdgeWeight(source: Vertex, target: Vertex, weight: int) returns (r: Result<()>)
      requires Valid()
      modifies this`edges
      ensures Valid()
      ensures r.Err? <==> !old(HasEdge(source, target))
      ensures edges == WithWeight(old(edges), source, target, weight)
    {
      PlainWithWeight(edges, source, target, weight);
      var it := FindEdge(edges, source, target);
      if it.Some? {
        edges := edges[it.value := edges[it.value].(weight := weight)];
        r := Ok(());
      } else {
        r := Err("Edge not found");
      }
    }

    /** `getNeighborsIterator`: the targets of the edges leaving `v`, with no presence check. */
    method GetNeighbors(v: Vertex) returns (neighbors: seq<Vertex>)
      ensures neighbors == Targets(Plain(edges), v)
    {
      neighbors := [];
      ghost var pe := Plain(edges);
      var i := 0;
      while i < |edges|
        invariant 0 <= i <= |edges|
        invariant neighbors == Targets(pe[..i], v)
      {
        TargetsAppend(pe[..i], pe[i], v);
        assert pe[..i + 1] == pe[..i] + [pe[i]];
        if edges[i].source == v {
          neighbors := neighbors + [edges[i].target];
        }
        i := i + 1;
      }
      assert pe[..i] == pe;
    }

    /** `getFilteredNeighborsIterator`: the neighbours passing `keep`, with no presence check. */
    method GetFilteredNeighbors(v: Vertex, keep: Vertex -> bool) returns (neighbors: seq<Vertex>)
      ensures neighbors == Filter(Targets(Plain(edges), v), keep)
    {
      neighbors := [];
      ghost var pe := Plain(edges);
      var i := 0;
      while i < |edges|
        invariant 0 <= i <= |edges|
        invariant neighbors == FilteredTargets(pe[..i], v, keep)
      {
        FilteredTargetsAppend(pe[..i], pe[i], v, keep);
        assert pe[..i + 1] == pe[..i] + [pe[i]];
        if edges[i].source == v && keep(edges[i].target) {
          neighbors := neighbors + [edges[i].target];
        }
        i := i + 1;
      }
      assert pe[..i] == pe;
      FilteredTargetsFilter(pe, v, keep);
    }
  }
}
