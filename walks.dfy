// Walks over the edge vector of a weighted graph, the objects whose weights the single-source
// shortest-path algorithms (include/algorithms/find_distance/BellmanFord.h, Dijkstra.h) compute.
// A walk is a sequence of edges of the graph, each starting where the previous one ends; its
// weight is the sum of the edge weights.

module ShortestWalks {
  import opened GraphTypes

  /** `p` is a walk from `a` to `b` along edges of `ws`; the empty walk stays at `a`. */
  ghost predicate IsWalk(ws: seq<WeightedEdge>, p: seq<WeightedEdge>, a: Vertex, b: Vertex) {
    (forall i :: 0 <= i < |p| ==> p[i] in ws) &&
    (forall i :: 0 < i < |p| ==> p[i - 1].target == p[i].source) &&
    (if p == [] then a == b else p[0].source == a && p[|p| - 1].target == b)
  }

  /** The sum of the weights along `p`. */
  function Weight(p: seq<WeightedEdge>): int
    decreases |p|
  {
    if p == [] then 0 else Weight(p[..|p| - 1]) + p[|p| - 1].weight
  }

  /** The vertex reached after the first `i` edges of a walk from `a`. */
  function Node(p: seq<WeightedEdge>, a: Vertex, i: nat): Vertex
    requires i <= |p|
  {
    if i == 0 then a else p[i - 1].target
  }

  /** Some walk leads from `a` to `v`. */
  ghost predicate Reachable(ws: seq<WeightedEdge>, a: Vertex, v: Vertex) {
    exists p :: IsWalk(ws, p, a, v)
  }

  /** A cycle of negative weight can be reached from `a`. */
  ghost predicate NegativeCycleFrom(ws: seq<WeightedEdge>, a: Vertex) {
    exists p, c, v :: IsWalk(ws, p, a, v) && IsWalk(ws, c, v, v) && Weight(c) < 0
  }

  /** The vertices listed in `vs`. */
  function VertexSet(vs: seq<Vertex>): set<Vertex> {
    set v | v in vs
  }

  /** Every edge runs between ids `0 .. n - 1`, which index the distance vectors and matrices. */
  ghost predicate InRange(ws: seq<WeightedEdge>, n: nat) {
    forall e :: e in ws ==> 0 <= e.source.id < n && 0 <= e.target.id < n
  }

  /** Every edge runs between vertices of `vs`. */
  ghost predicate Listed(vs: seq<Vertex>, ws: seq<WeightedEdge>) {
    forall e :: e in ws ==> e.source in vs && e.target in vs
  }

  /**
   * `d` is the shortest distance from `a` to `v`: INF exactly when no walk leads there, and
   * otherwise the weight of some walk and at most the weight of every walk.
   */
  ghost predicate ShortestIs(ws: seq<WeightedEdge>, a: Vertex, v: Vertex, d: Dist) {
    (d.Inf? <==> !Reachable(ws, a, v)) &&
    (d.Fin? ==> (exists p :: IsWalk(ws, p, a, v) && Weight(p) == d.value) &&
                (forall p :: IsWalk(ws, p, a, v) ==> d.value <= Weight(p)))
  }

  lemma {:induction false} WeightAppend(p: seq<WeightedEdge>, q: seq<WeightedEdge>)
    ensures Weight(p + q) == Weight(p) + Weight(q)
    decreases |q|
  {
    if q != [] {
      var init := q[..|q| - 1];
      assert (p + q)[..|p + q| - 1] == p + init;
      WeightAppend(p, init);
    } else {
      assert p + q == p;
    }
  }

  lemma {:induction false} WeightNonNegative(p: seq<WeightedEdge>)
    requires forall i :: 0 <= i < |p| ==> p[i].weight >= 0
    ensures Weight(p) >= 0
    decreases |p|
  {
    if p != [] {
      WeightNonNegative(p[..|p| - 1]);
    }
  }

  lemma WalkAppend(ws: seq<WeightedEdge>, p: seq<WeightedEdge>, a: Vertex, b: Vertex, e: WeightedEdge)
    requires IsWalk(ws, p, a, b) && e in ws && e.source == b
    ensures IsWalk(ws, p + [e], a, e.target) && Weight(p + [e]) == Weight(p) + e.weight
  {
    assert (p + [e])[..|p + [e]| - 1] == p;
  }

  lemma WalkConcat(ws: seq<WeightedEdge>, p: seq<WeightedEdge>, q: seq<WeightedEdge>, a: Vertex, b: Vertex, c: Vertex)
    requires IsWalk(ws, p, a, b) && IsWalk(ws, q, b, c)
    ensures IsWalk(ws, p + q, a, c) && Weight(p + q) == Weight(p) + Weight(q)
  {
    WeightAppend(p, q);
    if p == [] {
      assert p + q == q;
    } else if q == [] {
      assert p + q == p;
    } else {
      forall i | 0 < i < |p + q| ensures (p + q)[i - 1].target == (p + q)[i].source {
        if i == |p| {
          assert (p + q)[i - 1] == p[|p| - 1] && (p + q)[i] == q[0];
        } else if i < |p| {
          assert (p + q)[i - 1] == p[i - 1] && (p + q)[i] == p[i];
        } else {
          assert (p + q)[i - 1] == q[i - 1 - |p|] && (p + q)[i] == q[i - |p|];
        }
      }
    }
  }

  lemma WalkPrefix(ws: seq<WeightedEdge>, p: seq<WeightedEdge>, a: Vertex, b: Vertex, i: nat)
    requires IsWalk(ws, p, a, b) && i <= |p|
    ensures IsWalk(ws, p[..i], a, Node(p, a, i))
  {
    var h := p[..i];
    forall k | 0 < k < |h| ensures h[k - 1].target == h[k].source {
      assert h[k - 1] == p[k - 1] && h[k] == p[k];
    }
    if i > 0 {
      assert h[0] == p[0] && h[i - 1] == p[i - 1];
    }
  }

  lemma WalkSuffix(ws: seq<WeightedEdge>, p: seq<WeightedEdge>, a: Vertex, b: Vertex, i: nat)
    requires IsWalk(ws, p, a, b) && i <= |p|
    ensures IsWalk(ws, p[i..], Node(p, a, i), b)
  {
    var t := p[i..];
    forall k | 0 < k < |t| ensures t[k - 1].target == t[k].source {
      assert t[k - 1] == p[i + k - 1] && t[k] == p[i + k];
    }
    if i < |p| {
      assert t[0] == p[i] && t[|t| - 1] == p[|p| - 1];
      if i > 0 {
        assert p[i - 1].target == p[i].source;
      }
    }
  }

  lemma WalkSplit(ws: seq<WeightedEdge>, p: seq<WeightedEdge>, a: Vertex, b: Vertex, i: nat)
    requires IsWalk(ws, p, a, b) && i <= |p|
    ensures IsWalk(ws, p[..i], a, Node(p, a, i)) && IsWalk(ws, p[i..], Node(p, a, i), b)
    ensures Weight(p) == Weight(p[..i]) + Weight(p[i..])
  {
    assert p == p[..i] + p[i..];
    WeightAppend(p[..i], p[i..]);
    WalkPrefix(ws, p, a, b, i);
    WalkSuffix(ws, p, a, b, i);
  }

  /** A sequence longer than the set its elements come from repeats an element. */
  lemma {:induction false} Repeats(s: seq<Vertex>, S: set<Vertex>)
    requires |s| > |S| && forall j :: 0 <= j < |s| ==> s[j] in S
    ensures exists i, j :: 0 <= i < j < |s| && s[i] == s[j]
  {
    if s[0] in s[1..] {
      var j :| 1 <= j < |s| && s[j] == s[0];
      assert s[0] == s[j];
    } else {
      var rest := s[1..];
      forall j | 0 <= j < |rest| ensures rest[j] in S - {s[0]} {
        assert rest[j] == s[j + 1];
      }
      Repeats(rest, S - {s[0]});
      var i, j :| 0 <= i < j < |rest| && rest[i] == rest[j];
      assert s[i + 1] == s[j + 1];
    }
  }

  /** A walk of at least `|vs|` edges between vertices of `vs` passes some vertex twice. */
  lemma WalkRepeats(vs: seq<Vertex>, ws: seq<WeightedEdge>, p: seq<WeightedEdge>, a: Vertex, b: Vertex)
    requires Listed(vs, ws) && a in vs && IsWalk(ws, p, a, b) && |p| >= |vs|
    ensures exists i, j :: 0 <= i < j <= |p| && Node(p, a, i) == Node(p, a, j)
  {
    var nodes := seq(|p| + 1, k requires 0 <= k <= |p| => Node(p, a, k));
    forall k | 0 <= k < |nodes| ensures nodes[k] in VertexSet(vs) {
      if k > 0 {
        assert p[k - 1] in ws;
      }
    }
    assert |VertexSet(vs)| <= |vs| by {
      SetOfSeqSize(vs);
    }
    Repeats(nodes, VertexSet(vs));
    var i, j :| 0 <= i < j < |nodes| && nodes[i] == nodes[j];
    assert Node(p, a, i) == Node(p, a, j);
  }

  lemma {:induction false} SetOfSeqSize(vs: seq<Vertex>)
    ensures |VertexSet(vs)| <= |vs|
  {
    if vs != [] {
      SetOfSeqSize(vs[1..]);
      assert VertexSet(vs) == VertexSet(vs[1..]) + {vs[0]};
    }
  }

  /**
   * When no negative cycle can be reached from `a`, every walk from `a` is at least as heavy as
   * some walk with the same ends and fewer than `|vs|` edges.
   */
  lemma {:induction false} ShortWalk(vs: seq<Vertex>, ws: seq<WeightedEdge>, p: seq<WeightedEdge>, a: Vertex, b: Vertex)
    requires Listed(vs, ws) && a in vs && IsWalk(ws, p, a, b) && !NegativeCycleFrom(ws, a)
    ensures exists q :: IsWalk(ws, q, a, b) && |q| < |vs| && Weight(q) <= Weight(p)
    decreases |p|
  {
    if |p| >= |vs| {
      WalkRepeats(vs, ws, p, a, b);
      var i, j :| 0 <= i < j <= |p| && Node(p, a, i) == Node(p, a, j);
      var v := Node(p, a, i);
      var head, tail := p[..i], p[j..];
      WalkSplit(ws, p, a, b, j);
      WalkSplit(ws, p[..j], a, v, i);
      assert p[..j][..i] == head;
      var loop := p[..j][i..];
      assert IsWalk(ws, head, a, v) && IsWalk(ws, loop, v, v);
      assert Weight(loop) >= 0;
      WalkConcat(ws, head, tail, a, v, b);
      ShortWalk(vs, ws, head + tail, a, b);
    } else {
      assert IsWalk(ws, p, a, b);
    }
  }
}
