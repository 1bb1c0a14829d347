// Breadth-first search with a distance vector and visitor events
// (include/algorithms/bfs_dfs/BFS.h). The neighbours of a vertex are the targets of the edges
// leaving it, in edge order; the visitor is modelled as the trace of the events it receives.

module BreadthFirst {
  import opened GraphTypes
  import opened GraphBase

  /** The visitor hooks that BFS calls, in the order it calls them. */
  datatype Event = VisitVertex(v: Vertex) | ExamineEdge(e: Edge) | TreeEdge(e: Edge) | FinishVertex(v: Vertex)

  // ----- Walks and distances -----

  /** `p` is a walk from `s` to `x` over the edges `es`. */
  ghost predicate Walk(es: seq<Edge>, p: seq<Vertex>, s: Vertex, x: Vertex) {
    |p| >= 1 && p[0] == s && p[|p| - 1] == x &&
    forall k :: 0 <= k < |p| - 1 ==> HasEdgeIn(es, p[k], p[k + 1])
  }

  ghost predicate Reachable(es: seq<Edge>, s: Vertex, x: Vertex) {
    exists p :: Walk(es, p, s, x)
  }

  /** `n` is the fewest edges on a walk from `s` to `x`. */
  ghost predicate Shortest(es: seq<Edge>, s: Vertex, x: Vertex, n: int) {
    n >= 0 &&
    (exists p :: Walk(es, p, s, x) && |p| == n + 1) &&
    (forall p :: Walk(es, p, s, x) ==> |p| >= n + 1)
  }

  /** The fewest-edge distance is unique. */
  lemma ShortestUnique(es: seq<Edge>, s: Vertex, x: Vertex, n: int, m: int)
    requires Shortest(es, s, x, n) && Shortest(es, s, x, m)
    ensures n == m
  {
    var p :| Walk(es, p, s, x) && |p| == n + 1;
    var q :| Walk(es, q, s, x) && |q| == m + 1;
  }

  /** A walk followed by an edge is a walk. */
  lemma WalkSnoc(es: seq<Edge>, p: seq<Vertex>, s: Vertex, y: Vertex, x: Vertex)
    requires Walk(es, p, s, y) && HasEdgeIn(es, y, x)
    ensures Walk(es, p + [x], s, x)
  {
    var q := p + [x];
    forall k | 0 <= k < |q| - 1 ensures HasEdgeIn(es, q[k], q[k + 1]) {
      if k < |p| - 1 {
        assert q[k] == p[k] && q[k + 1] == p[k + 1];
      }
    }
  }

  /** The distance entry of `x`: `d[x.id]`, or 0 off the vector. */
  function D(d: seq<int>, x: Vertex): int {
    if 0 <= x.id < |d| then d[x.id] else 0
  }

  // ----- The event trace -----

  /** The vertices passed to `visitVertex`, in order. */
  function Visits(t: seq<Event>): seq<Vertex>
    decreases |t|
  {
    if t == [] then []
    else Visits(t[..|t| - 1]) + (if t[|t| - 1].VisitVertex? then [t[|t| - 1].v] else [])
  }

  /** The vertices passed to `finishVertex`, in order. */
  function Finishes(t: seq<Event>): seq<Vertex>
    decreases |t|
  {
    if t == [] then []
    else Finishes(t[..|t| - 1]) + (if t[|t| - 1].FinishVertex? then [t[|t| - 1].v] else [])
  }

  /** The targets of the edges passed to `treeEdge`, in order. */
  function Trees(t: seq<Event>): seq<Vertex>
    decreases |t|
  {
    if t == [] then []
    else Trees(t[..|t| - 1]) + (if t[|t| - 1].TreeEdge? then [t[|t| - 1].e.target] else [])
  }

  /** The edges passed to `examineEdge`, in order. */
  function Examined(t: seq<Event>): seq<Edge>
    decreases |t|
  {
    if t == [] then []
    else Examined(t[..|t| - 1]) + (if t[|t| - 1].ExamineEdge? then [t[|t| - 1].e] else [])
  }

  /** The projections of the trace grow by the one event appended. */
  lemma ProjectAppend(t: seq<Event>, ev: Event)
    ensures Visits(t + [ev]) == Visits(t) + (if ev.VisitVertex? then [ev.v] else [])
    ensures Finishes(t + [ev]) == Finishes(t) + (if ev.FinishVertex? then [ev.v] else [])
    ensures Trees(t + [ev]) == Trees(t) + (if ev.TreeEdge? then [ev.e.target] else [])
    ensures Examined(t + [ev]) == Examined(t) + (if ev.ExamineEdge? then [ev.e] else [])
  {
    assert (t + [ev])[..|t + [ev]| - 1] == t;
  }

  /** The edges examined while scanning `u` with neighbour list `ws`. */
  function ScanEdges(u: Vertex, ws: seq<Vertex>): (r: seq<Edge>)
    ensures |r| == |ws|
    ensures forall i :: 0 <= i < |ws| ==> r[i].source == u && r[i].target == ws[i]
  {
    seq(|ws|, i requires 0 <= i < |ws| => NewPlainEdge(u, ws[i]))
  }

  /** The edges examined while scanning each of `us` in turn. */
  function Scans(es: seq<Edge>, us: seq<Vertex>): seq<Edge>
    decreases |us|
  {
    if us == [] then []
    else Scans(es, us[..|us| - 1]) + ScanEdges(us[|us| - 1], Targets(es, us[|us| - 1]))
  }

  // ----- The state of the search -----

  /** The vertices the search could ever mark: the start and every edge target. */
  function Seen(es: seq<Edge>, start: Vertex): set<Vertex> {
    {start} + set i | 0 <= i < |es| :: es[i].target
  }

  /** `d[vertex.id]` stays inside the vector: every id the search can see is in 0..n. */
  ghost predicate InRange(es: seq<Edge>, n: nat, start: Vertex) {
    0 <= start.id <= n && forall i :: 0 <= i < |es| ==> 0 <= es[i].target.id <= n
  }

  /** The queue record: distinct vertices from the start, marked exactly when listed, ids in 0..n. */
  ghost predicate Listed(es: seq<Edge>, n: nat, start: Vertex, order: seq<Vertex>, head: nat,
                         visited: set<Vertex>, d: seq<int>) {
    |d| == n + 1 && 1 <= |order| && order[0] == start && head <= |order| &&
    DistinctVertices(order) && (forall x :: x in visited <==> x in order) &&
    visited <= Seen(es, start) &&
    (forall x :: x in visited ==> 0 <= x.id <= n && D(d, x) >= 0) &&
    D(d, start) == 0 &&
    (forall i :: 0 <= i <= n && Vertex(i) !in visited ==> d[i] == 0)
  }

  /** Every marked vertex other than the start was marked from a parent one level lower. */
  ghost predicate Tree(es: seq<Edge>, order: seq<Vertex>, visited: set<Vertex>, d: seq<int>, via: map<Vertex, Vertex>) {
    forall k :: 0 < k < |order| ==>
      order[k] in via && via[order[k]] in visited && HasEdgeIn(es, via[order[k]], order[k]) &&
      D(d, order[k]) == D(d, via[order[k]]) + 1
  }

  /** Levels never fall along the queue record, and none is more than one above the head. */
  ghost predicate Sorted(order: seq<Vertex>, head: nat, d: seq<int>) {
    (forall a, b :: 0 <= a <= b < |order| ==> D(d, order[a]) <= D(d, order[b])) &&
    (head < |order| ==> forall a :: 0 <= a < |order| ==> D(d, order[a]) <= D(d, order[head]) + 1)
  }

  /** A scanned vertex leads only to marked vertices at most one level higher. */
  ghost predicate Scanned(es: seq<Edge>, order: seq<Vertex>, head: nat, visited: set<Vertex>, d: seq<int>)
    requires head <= |order|
  {
    forall m, w :: 0 <= m < head && HasEdgeIn(es, order[m], w) ==> w in visited && D(d, w) <= D(d, order[m]) + 1
  }

  /**
   * The invariant of the loop. `order` lists every vertex ever enqueued; the queue is its
   * suffix from `head`, and the vertices before `head` have been scanned.
   */
  ghost predicate Searching(es: seq<Edge>, n: nat, start: Vertex, order: seq<Vertex>, head: nat,
                            visited: set<Vertex>, d: seq<int>, via: map<Vertex, Vertex>) {
    Listed(es, n, start, order, head, visited, d) && Tree(es, order, visited, d, via) &&
    Sorted(order, head, d) && Scanned(es, order, head, visited, d)
  }

  /** What the visitor has seen once the vertices before `head` are finished. */
  predicate Traced(es: seq<Edge>, order: seq<Vertex>, head: nat, trace: seq<Event>)
    requires 1 <= |order| && head <= |order|
  {
    Visits(trace) == order[..head] && Finishes(trace) == order[..head] &&
    Examined(trace) == Scans(es, order[..head]) && Trees(trace) == order[1..]
  }

  /** Marking the unmarked target `t` of `u` from `u` keeps every marked vertex's parent one level lower. */
  lemma DiscoverTree(es: seq<Edge>, order: seq<Vertex>, visited: set<Vertex>, d: seq<int>, via: map<Vertex, Vertex>,
                     u: Vertex, t: Vertex)
    requires Tree(es, order, visited, d, via) && (forall x :: x in visited <==> x in order)
    requires u in visited && t !in visited && HasEdgeIn(es, u, t) && 0 <= t.id < |d|
    ensures Tree(es, order + [t], visited + {t}, d[t.id := D(d, u) + 1], via[t := u])
  {
    var order1, visited1, d1, via1 := order + [t], visited + {t}, d[t.id := D(d, u) + 1], via[t := u];
    assert forall x :: x != t ==> D(d1, x) == D(d, x);
    forall k | 0 < k < |order1|
      ensures order1[k] in via1 && via1[order1[k]] in visited1 && HasEdgeIn(es, via1[order1[k]], order1[k]) &&
              D(d1, order1[k]) == D(d1, via1[order1[k]]) + 1
    {
      if k < |order| {
        assert order1[k] == order[k] && order[k] in visited;
        assert via[order[k]] in visited;
      }
    }
  }

  /** Marking `t` leaves every scanned vertex's targets marked and their levels alone. */
  lemma DiscoverScanned(es: seq<Edge>, order: seq<Vertex>, head: nat, visited: set<Vertex>, d: seq<int>,
                        u: Vertex, t: Vertex)
    requires head <= |order| && Scanned(es, order, head, visited, d) && (forall x :: x in visited <==> x in order)
    requires t !in visited && 0 <= t.id < |d|
    ensures Scanned(es, order + [t], head, visited + {t}, d[t.id := D(d, u) + 1])
  {
    var order1, visited1, d1 := order + [t], visited + {t}, d[t.id := D(d, u) + 1];
    assert forall x :: x != t ==> D(d1, x) == D(d, x);
    forall m, w | 0 <= m < head && HasEdgeIn(es, order1[m], w) ensures w in visited1 && D(d1, w) <= D(d1, order1[m]) + 1 {
      assert order1[m] == order[m] && order[m] in visited;
    }
  }

  lemma DiscoverListed(es: seq<Edge>, n: nat, start: Vertex, order: seq<Vertex>, head: nat,
                       visited: set<Vertex>, d: seq<int>, u: Vertex, t: Vertex)
    requires Listed(es, n, start, order, head, visited, d) && u in visited && t !in visited
    requires t in Seen(es, start) && 0 <= t.id <= n
    ensures Listed(es, n, start, order + [t], head, visited + {t}, d[t.id := D(d, u) + 1])
  {
    var order1, d1 := order + [t], d[t.id := D(d, u) + 1];
    assert forall x :: x != t ==> D(d1, x) == D(d, x);
    assert DistinctVertices(order1) by {
      forall a, b | 0 <= a < b < |order1| ensures order1[a] != order1[b] {
        if b == |order| { assert order1[a] == order[a] && order[a] in visited; }
      }
    }
  }

  lemma DiscoverSorted(order: seq<Vertex>, head: nat, visited: set<Vertex>, d: seq<int>, u: Vertex, t: Vertex)
    requires Sorted(order, head, d) && head < |order| && order[head] == u && 0 <= t.id < |d|
    requires forall x :: x in visited <==> x in order
    requires t !in visited
    ensures Sorted(order + [t], head, d[t.id := D(d, u) + 1])
  {
    var order1, d1 := order + [t], d[t.id := D(d, u) + 1];
    assert forall x :: x != t ==> D(d1, x) == D(d, x);
    assert forall a :: 0 <= a < |order| ==> order1[a] == order[a] && order[a] != t;
    forall a, b | 0 <= a <= b < |order1| ensures D(d1, order1[a]) <= D(d1, order1[b]) {
      if b < |order| {
        assert D(d, order[a]) <= D(d, order[b]);
      } else if a < |order| {
        assert D(d, order[a]) <= D(d, order[head]) + 1;
      }
    }
    forall a | 0 <= a < |order1| ensures D(d1, order1[a]) <= D(d1, order1[head]) + 1 {
      if a < |order| {
        assert D(d, order[a]) <= D(d, order[head]) + 1;
      }
    }
  }

  /** A head whose every target is marked at most one level higher may leave the queue. */
  lemma Advance(es: seq<Edge>, n: nat, start: Vertex, order: seq<Vertex>, head: nat,
                visited: set<Vertex>, d: seq<int>, via: map<Vertex, Vertex>)
    requires Searching(es, n, start, order, head, visited, d, via) && head < |order|
    requires forall w :: HasEdgeIn(es, order[head], w) ==> w in visited && D(d, w) <= D(d, order[head]) + 1
    ensures Searching(es, n, start, order, head + 1, visited, d, via)
  {
    if head + 1 < |order| {
      forall a | 0 <= a < |order| ensures D(d, order[a]) <= D(d, order[head + 1]) + 1 {
        assert D(d, order[head]) <= D(d, order[head + 1]);
      }
    }
  }

  /** Every marked vertex is reached by a walk as long as its level. */
  lemma {:induction false} PathTo(es: seq<Edge>, n: nat, start: Vertex, order: seq<Vertex>, head: nat,
                                  visited: set<Vertex>, d: seq<int>, via: map<Vertex, Vertex>, x: Vertex)
    returns (p: seq<Vertex>)
    requires Searching(es, n, start, order, head, visited, d, via) && x in visited
    ensures Walk(es, p, start, x) && |p| == D(d, x) + 1
    decreases D(d, x)
  {
    if x == start {
      p := [start];
    } else {
      var k :| 0 <= k < |order| && order[k] == x;
      var q := PathTo(es, n, start, order, head, visited, d, via, via[x]);
      WalkSnoc(es, q, start, via[x], x);
      p := q + [x];
    }
  }

  /** Once every marked vertex is scanned, no walk is shorter than the level it reaches. */
  lemma {:induction false} WalkBound(es: seq<Edge>, n: nat, start: Vertex, order: seq<Vertex>,
                                     visited: set<Vertex>, d: seq<int>, via: map<Vertex, Vertex>,
                                     p: seq<Vertex>, x: Vertex)
    requires Searching(es, n, start, order, |order|, visited, d, via) && Walk(es, p, start, x)
    ensures x in visited && D(d, x) <= |p| - 1
    decreases |p|
  {
    if |p| > 1 {
      var y := p[|p| - 2];
      var init := p[..|p| - 1];
      assert Walk(es, init, start, y) by {
        forall k | 0 <= k < |init| - 1 ensures HasEdgeIn(es, init[k], init[k + 1]) {
          assert init[k] == p[k] && init[k + 1] == p[k + 1];
        }
      }
      WalkBound(es, n, start, order, visited, d, via, init, y);
      var m :| 0 <= m < |order| && order[m] == y;
      assert HasEdgeIn(es, p[|p| - 2], p[|p| - 1]);
    }
  }

  /** At the end of the search `d` holds the fewest-edge distances, 0 for the unreached. */
  lemma Finish(es: seq<Edge>, n: nat, start: Vertex, order: seq<Vertex>,
               visited: set<Vertex>, d: seq<int>, via: map<Vertex, Vertex>)
    requires Searching(es, n, start, order, |order|, visited, d, via)
    ensures forall x :: x in order <==> Reachable(es, start, x)
    ensures forall i :: 0 <= i <= n ==>
              if Reachable(es, start, Vertex(i)) then Shortest(es, start, Vertex(i), d[i]) else d[i] == 0
  {
    forall x ensures x in visited <==> Reachable(es, start, x) {
      if x in visited {
        var p := PathTo(es, n, start, order, |order|, visited, d, via, x);
      }
      if Reachable(es, start, x) {
        var p :| Walk(es, p, start, x);
        WalkBound(es, n, start, order, visited, d, via, p, x);
      }
    }
    forall i | 0 <= i <= n
      ensures if Reachable(es, start, Vertex(i)) then Shortest(es, start, Vertex(i), d[i]) else d[i] == 0
    {
      var x := Vertex(i);
      if Reachable(es, start, x) {
        var p := PathTo(es, n, start, order, |order|, visited, d, via, x);
        forall q | Walk(es, q, start, x) ensures |q| >= d[i] + 1 {
          WalkBound(es, n, start, order, visited, d, via, q, x);
        }
      }
    }
  }

  // ----- The search as a function of its state -----

  /**
   * A state of the search: `order` lists every vertex ever enqueued (the queue is its suffix
   * from `head`), `visited` the marks, `d` the distances, `via` the parent each vertex was
   * reached from, and `trace` the events the visitor has received.
   */
  datatype Search = Search(order: seq<Vertex>, head: nat, visited: set<Vertex>, d: seq<int>,
                           via: map<Vertex, Vertex>, trace: seq<Event>)

  ghost predicate Good(es: seq<Edge>, n: nat, start: Vertex, s: Search) {
    Searching(es, n, start, s.order, s.head, s.visited, s.d, s.via)
  }

  /** The queue holds the start, which alone is marked; every distance is 0. */
  function Initial(n: nat, start: Vertex): Search {
    Search([start], 0, {start}, seq(n + 1, _ => 0), map[], [])
  }

  /** The body of the neighbour loop for the neighbour `w` of `u`. */
  function Explore(es: seq<Edge>, u: Vertex, s: Search, w: Vertex): Search {
    var e := NewPlainEdge(u, w);
    if w in s.visited then s.(trace := s.trace + [ExamineEdge(e)])
    else
      var d := if 0 <= w.id < |s.d| then s.d[w.id := D(s.d, u) + 1] else s.d;
      Search(s.order + [w], s.head, s.visited + {w}, d, s.via[w := u], s.trace + [ExamineEdge(e)] + [TreeEdge(e)])
  }

  /** The neighbour loop over `ws`; it only ever appends to the queue record. */
  function ExploreAll(es: seq<Edge>, u: Vertex, s: Search, ws: seq<Vertex>): (r: Search)
    ensures r.head == s.head && |r.d| == |s.d|
    ensures |s.order| <= |r.order| && r.order[..|s.order|] == s.order
    ensures forall k :: |s.order| <= k < |r.order| ==> r.order[k] in ws
    decreases |ws|
  {
    if ws == [] then s
    else
      var r := ExploreAll(es, u, s, ws[..|ws| - 1]);
      assert (r.order + [ws[|ws| - 1]])[..|s.order|] == r.order[..|s.order|];
      Explore(es, u, r, ws[|ws| - 1])
  }

  /** One round of the outer loop: dequeue the head, visit it, scan its neighbours, finish it. */
  function Process(es: seq<Edge>, s: Search): Search
    requires s.head < |s.order|
  {
    var u := s.order[s.head];
    var r := ExploreAll(es, u, s.(trace := s.trace + [VisitVertex(u)]), Targets(es, u));
    r.(head := s.head + 1, trace := r.trace + [FinishVertex(u)])
  }

  /** The outer loop, run until the queue is empty. */
  function Run(es: seq<Edge>, start: Vertex, s: Search): Search
    decreases Seen(es, start) - s.visited, if s.head < |s.order| then |s.order| - s.head else 0
  {
    if s.head >= |s.order| then s
    else
      ProcessProgress(es, start, s);
      Run(es, start, Process(es, s))
  }

  /** What `BFS(graph, startVertex, visitor)` leaves behind. */
  function BfsResult(es: seq<Edge>, n: nat, start: Vertex): Search {
    Run(es, start, Initial(n, start))
  }

  // ----- Termination -----

  lemma TargetSeen(es: seq<Edge>, start: Vertex, u: Vertex, w: Vertex)
    requires w in Targets(es, u)
    ensures w in Seen(es, start)
  {
    TargetsMembers(es, u, w);
    var i :| 0 <= i < |es| && IsEdge(es[i], u, w);
  }

  /** A target of `u` is one the search can see, with its id in 0..n. */
  lemma TargetFacts(es: seq<Edge>, n: nat, start: Vertex, u: Vertex, w: Vertex)
    requires InRange(es, n, start) && HasEdgeIn(es, u, w)
    ensures w in Seen(es, start) && 0 <= w.id <= n
  {
    var i :| 0 <= i < |es| && IsEdge(es[i], u, w);
  }

  /** The neighbour loop either changes no mark nor the queue, or marks a vertex it could see. */
  lemma {:induction false} ExploreAllProgress(es: seq<Edge>, start: Vertex, u: Vertex, s: Search, ws: seq<Vertex>)
    requires forall i :: 0 <= i < |ws| ==> ws[i] in Seen(es, start)
    ensures var r := ExploreAll(es, u, s, ws);
            (r.visited == s.visited && r.order == s.order) || Seen(es, start) - r.visited < Seen(es, start) - s.visited
    decreases |ws|
  {
    if ws != [] {
      var init := ws[..|ws| - 1];
      ExploreAllProgress(es, start, u, s, init);
      var w := ws[|ws| - 1];
      var r := ExploreAll(es, u, s, init);
      if w !in r.visited {
        assert w in Seen(es, start);
        assert Seen(es, start) - (r.visited + {w}) < Seen(es, start) - r.visited;
      }
    }
  }

  /** A round either leaves the marks and the queue record alone, or marks a vertex. */
  lemma ProcessProgress(es: seq<Edge>, start: Vertex, s: Search)
    requires s.head < |s.order|
    ensures var r := Process(es, s);
            (r.visited == s.visited && r.order == s.order) || Seen(es, start) - r.visited < Seen(es, start) - s.visited
  {
    var u := s.order[s.head];
    var ws := Targets(es, u);
    forall i | 0 <= i < |ws| ensures ws[i] in Seen(es, start) {
      TargetSeen(es, start, u, ws[i]);
    }
    ExploreAllProgress(es, start, u, s.(trace := s.trace + [VisitVertex(u)]), ws);
  }

  // ----- The invariant along the run -----

  /** One neighbour keeps the invariant and leaves it marked at most one level above `u`. */
  lemma ExploreKeeps(es: seq<Edge>, n: nat, start: Vertex, s: Search, u: Vertex, w: Vertex)
    requires InRange(es, n, start) && Good(es, n, start, s)
    requires s.head < |s.order| && s.order[s.head] == u && HasEdgeIn(es, u, w)
    ensures var r := Explore(es, u, s, w);
            Good(es, n, start, r) && w in r.visited && D(r.d, w) <= D(r.d, u) + 1 &&
            s.visited <= r.visited && forall x :: x in s.visited ==> D(r.d, x) == D(s.d, x)
  {
    if w in s.visited {
      ExploreMarked(es, n, start, s, u, w);
    } else {
      ExploreUnmarked(es, n, start, s, u, w);
    }
  }

  lemma ExploreMarked(es: seq<Edge>, n: nat, start: Vertex, s: Search, u: Vertex, w: Vertex)
    requires InRange(es, n, start) && Good(es, n, start, s)
    requires s.head < |s.order| && s.order[s.head] == u && w in s.visited
    ensures var r := Explore(es, u, s, w);
            Good(es, n, start, r) && D(r.d, w) <= D(r.d, u) + 1 && r.visited == s.visited && r.d == s.d
  {
    var a :| 0 <= a < |s.order| && s.order[a] == w;
    assert D(s.d, s.order[a]) <= D(s.d, s.order[s.head]) + 1;
  }

  lemma ExploreUnmarked(es: seq<Edge>, n: nat, start: Vertex, s: Search, u: Vertex, w: Vertex)
    requires InRange(es, n, start) && Good(es, n, start, s)
    requires s.head < |s.order| && s.order[s.head] == u && HasEdgeIn(es, u, w) && w !in s.visited
    ensures var r := Explore(es, u, s, w);
            Good(es, n, start, r) && w in r.visited && D(r.d, w) <= D(r.d, u) + 1 &&
            s.visited <= r.visited && forall x :: x in s.visited ==> D(r.d, x) == D(s.d, x)
  {
    TargetFacts(es, n, start, u, w);
    assert u in s.visited by { assert s.order[s.head] == u; }
    ExploreListed(es, n, start, s, u, w);
    ExploreTree(es, s, u, w);
    ExploreSorted(es, s, u, w);
    ExploreScanned(es, s, u, w);
    DiscoverLevels(es, s, u, w);
  }

  lemma ExploreListed(es: seq<Edge>, n: nat, start: Vertex, s: Search, u: Vertex, w: Vertex)
    requires Listed(es, n, start, s.order, s.head, s.visited, s.d) && u in s.visited && w !in s.visited
    requires w in Seen(es, start) && 0 <= w.id <= n
    ensures var r := Explore(es, u, s, w); Listed(es, n, start, r.order, r.head, r.visited, r.d)
  {
    DiscoverListed(es, n, start, s.order, s.head, s.visited, s.d, u, w);
  }

  lemma ExploreTree(es: seq<Edge>, s: Search, u: Vertex, w: Vertex)
    requires Tree(es, s.order, s.visited, s.d, s.via) && (forall x :: x in s.visited <==> x in s.order)
    requires u in s.visited && w !in s.visited && HasEdgeIn(es, u, w) && 0 <= w.id < |s.d|
    ensures var r := Explore(es, u, s, w); Tree(es, r.order, r.visited, r.d, r.via)
  {
    DiscoverTree(es, s.order, s.visited, s.d, s.via, u, w);
  }

  lemma ExploreSorted(es: seq<Edge>, s: Search, u: Vertex, w: Vertex)
    requires Sorted(s.order, s.head, s.d) && s.head < |s.order| && s.order[s.head] == u && 0 <= w.id < |s.d|
    requires (forall x :: x in s.visited <==> x in s.order) && w !in s.visited
    ensures var r := Explore(es, u, s, w); Sorted(r.order, r.head, r.d)
  {
    DiscoverSorted(s.order, s.head, s.visited, s.d, u, w);
  }

  lemma ExploreScanned(es: seq<Edge>, s: Search, u: Vertex, w: Vertex)
    requires s.head <= |s.order| && Scanned(es, s.order, s.head, s.visited, s.d)
    requires (forall x :: x in s.visited <==> x in s.order) && w !in s.visited && 0 <= w.id < |s.d|
    ensures var r := Explore(es, u, s, w); r.head <= |r.order| && Scanned(es, r.order, r.head, r.visited, r.d)
  {
    DiscoverScanned(es, s.order, s.head, s.visited, s.d, u, w);
  }

  /** Newly marking `w` from the marked `u` puts it one level above `u` and moves no other level. */
  lemma DiscoverLevels(es: seq<Edge>, s: Search, u: Vertex, w: Vertex)
    requires w !in s.visited && u in s.visited && 0 <= w.id < |s.d|
    ensures var r := Explore(es, u, s, w);
            w in r.visited && D(r.d, w) <= D(r.d, u) + 1 &&
            s.visited <= r.visited && forall x :: x in s.visited ==> D(r.d, x) == D(s.d, x)
  {
    var r := Explore(es, u, s, w);
    assert r.d == s.d[w.id := D(s.d, u) + 1];
    assert forall x :: x != w ==> D(r.d, x) == D(s.d, x);
  }

  /** Each of `ws` is marked at most one level above `u`. */
  ghost predicate Done(ws: seq<Vertex>, visited: set<Vertex>, d: seq<int>, u: Vertex) {
    forall i :: 0 <= i < |ws| ==> ws[i] in visited && D(d, ws[i]) <= D(d, u) + 1
  }

  /** `Done` survives more marks that leave the old levels alone, and one more neighbour. */
  lemma DoneExtend(ws: seq<Vertex>, v0: set<Vertex>, d0: seq<int>, v1: set<Vertex>, d1: seq<int>, u: Vertex)
    requires |ws| >= 1 && Done(ws[..|ws| - 1], v0, d0, u) && u in v0 && v0 <= v1
    requires forall x :: x in v0 ==> D(d1, x) == D(d0, x)
    requires ws[|ws| - 1] in v1 && D(d1, ws[|ws| - 1]) <= D(d1, u) + 1
    ensures Done(ws, v1, d1, u)
  {
    var init := ws[..|ws| - 1];
    forall i | 0 <= i < |ws| ensures ws[i] in v1 && D(d1, ws[i]) <= D(d1, u) + 1 {
      if i < |init| {
        assert ws[i] == init[i] && init[i] in v0;
      }
    }
  }

  /** The neighbour loop keeps the invariant and leaves every neighbour marked at most one level up. */
  lemma {:induction false} ExploreAllKeeps(es: seq<Edge>, n: nat, start: Vertex, s: Search, u: Vertex, ws: seq<Vertex>)
    requires InRange(es, n, start) && Good(es, n, start, s)
    requires s.head < |s.order| && s.order[s.head] == u
    requires forall i :: 0 <= i < |ws| ==> HasEdgeIn(es, u, ws[i])
    ensures var r := ExploreAll(es, u, s, ws);
            Good(es, n, start, r) && s.visited <= r.visited &&
            (forall x :: x in s.visited ==> D(r.d, x) == D(s.d, x)) && Done(ws, r.visited, r.d, u)
    decreases |ws|
  {
    if ws != [] {
      var init := ws[..|ws| - 1];
      ExploreAllKeeps(es, n, start, s, u, init);
      var r0 := ExploreAll(es, u, s, init);
      assert r0.order[s.head] == u by { assert r0.order[..|s.order|][s.head] == r0.order[s.head]; }
      ExploreKeeps(es, n, start, r0, u, ws[|ws| - 1]);
      var r := ExploreAll(es, u, s, ws);
      assert u in s.visited by { assert s.order[s.head] == u; }
      DoneExtend(ws, r0.visited, r0.d, r.visited, r.d, u);
    }
  }

  /** A round keeps the invariant. */
  lemma ProcessKeeps(es: seq<Edge>, n: nat, start: Vertex, s: Search)
    requires InRange(es, n, start) && Good(es, n, start, s) && s.head < |s.order|
    ensures Good(es, n, start, Process(es, s))
  {
    var u := s.order[s.head];
    var ws := Targets(es, u);
    var s1 := s.(trace := s.trace + [VisitVertex(u)]);
    forall i | 0 <= i < |ws| ensures HasEdgeIn(es, u, ws[i]) {
      TargetsMembers(es, u, ws[i]);
    }
    ExploreAllKeeps(es, n, start, s1, u, ws);
    var r := ExploreAll(es, u, s1, ws);
    assert r.order[s.head] == u by { assert r.order[..|s.order|][s.head] == r.order[s.head]; }
    forall w | HasEdgeIn(es, r.order[r.head], w) ensures w in r.visited && D(r.d, w) <= D(r.d, r.order[r.head]) + 1 {
      TargetsMembers(es, u, w);
      var i :| 0 <= i < |ws| && ws[i] == w;
    }
    Advance(es, n, start, r.order, r.head, r.visited, r.d, r.via);
  }

  /** One neighbour: one examined edge, and a tree edge exactly when it is newly queued. */
  lemma ExploreTrace(es: seq<Edge>, u: Vertex, s: Search, w: Vertex)
    ensures var r := Explore(es, u, s, w);
            var added := if w in s.visited then [] else [w];
            r.order == s.order + added &&
            Visits(r.trace) == Visits(s.trace) && Finishes(r.trace) == Finishes(s.trace) &&
            Examined(r.trace) == Examined(s.trace) + [NewPlainEdge(u, w)] &&
            Trees(r.trace) == Trees(s.trace) + added
  {
    var e := NewPlainEdge(u, w);
    ProjectAppend(s.trace, ExamineEdge(e));
    ProjectAppend(s.trace + [ExamineEdge(e)], TreeEdge(e));
    if w in s.visited {
      assert s.order + [] == s.order;
    }
  }

  lemma ScanEdgesSnoc(u: Vertex, ws: seq<Vertex>)
    requires |ws| >= 1
    ensures ScanEdges(u, ws) == ScanEdges(u, ws[..|ws| - 1]) + [NewPlainEdge(u, ws[|ws| - 1])]
  {
  }

  lemma AppendAssoc<T>(a: seq<T>, b: seq<T>, c: seq<T>)
    ensures (a + b) + c == a + (b + c)
  {
  }

  /** A suffix of `a + x` from inside `a` is the suffix of `a` followed by `x`. */
  lemma AppendSuffix<T>(a: seq<T>, x: seq<T>, k: nat)
    requires k <= |a|
    ensures (a + x)[k..] == a[k..] + x
  {
  }

  /** The neighbour loop reports one examined edge per neighbour and one tree edge per newly queued vertex. */
  lemma {:induction false} ExploreAllTrace(es: seq<Edge>, u: Vertex, s: Search, ws: seq<Vertex>)
    ensures var r := ExploreAll(es, u, s, ws);
            Visits(r.trace) == Visits(s.trace) && Finishes(r.trace) == Finishes(s.trace) &&
            Examined(r.trace) == Examined(s.trace) + ScanEdges(u, ws) &&
            Trees(r.trace) == Trees(s.trace) + r.order[|s.order|..]
    decreases |ws|
  {
    if ws == [] {
      assert s.order[|s.order|..] == [] && ScanEdges(u, ws) == [];
    } else {
      var init, w := ws[..|ws| - 1], ws[|ws| - 1];
      ExploreAllTrace(es, u, s, init);
      var r0 := ExploreAll(es, u, s, init);
      ExploreTrace(es, u, r0, w);
      var added := if w in r0.visited then [] else [w];
      ScanEdgesSnoc(u, ws);
      AppendAssoc(Examined(s.trace), ScanEdges(u, init), [NewPlainEdge(u, w)]);
      AppendSuffix(r0.order, added, |s.order|);
      AppendAssoc(Trees(s.trace), r0.order[|s.order|..], added);
    }
  }

  /** A prefix of the extended record is the prefix of the old one. */
  lemma PrefixAgrees<T>(a: seq<T>, b: seq<T>, k: nat)
    requires |b| <= |a| && a[..|b|] == b && k <= |b|
    ensures a[..k] == b[..k]
  {
    assert a[..k] == a[..|b|][..k];
  }

  /** A suffix of the extended record is the old suffix and then what was appended. */
  lemma SuffixAgrees<T>(a: seq<T>, b: seq<T>, k: nat)
    requires |b| <= |a| && a[..|b|] == b && k <= |b|
    ensures a[k..] == b[k..] + a[|b|..]
  {
    assert a == b + a[|b|..];
  }

  lemma PrefixSnoc<T>(a: seq<T>, k: nat)
    requires k < |a|
    ensures a[..k + 1] == a[..k] + [a[k]]
  {
  }

  lemma AppendEmpty<T>(a: seq<T>)
    ensures a + [] == a
  {
  }

  /** The examined edges of `us` and then `u`. */
  lemma ScansSnoc(es: seq<Edge>, us: seq<Vertex>, u: Vertex)
    ensures Scans(es, us + [u]) == Scans(es, us) + ScanEdges(u, Targets(es, u))
  {
    assert (us + [u])[..|us|] == us;
  }

  /** The events of one round: the head's visit and finish, its scan, and a tree edge per newly queued vertex. */
  lemma ProcessEvents(es: seq<Edge>, s: Search)
    requires s.head < |s.order|
    ensures var p := Process(es, s); var u := s.order[s.head];
            |s.order| <= |p.order| && p.order[..|s.order|] == s.order && p.head == s.head + 1 &&
            Visits(p.trace) == Visits(s.trace) + [u] && Finishes(p.trace) == Finishes(s.trace) + [u] &&
            Examined(p.trace) == Examined(s.trace) + ScanEdges(u, Targets(es, u)) &&
            Trees(p.trace) == Trees(s.trace) + p.order[|s.order|..]
  {
    var u := s.order[s.head];
    var s1 := s.(trace := s.trace + [VisitVertex(u)]);
    ProjectAppend(s.trace, VisitVertex(u));
    ExploreAllTrace(es, u, s1, Targets(es, u));
    var r := ExploreAll(es, u, s1, Targets(es, u));
    ProjectAppend(r.trace, FinishVertex(u));
    AppendEmpty(Finishes(s.trace));
    AppendEmpty(Examined(s.trace));
    AppendEmpty(Trees(s.trace));
    AppendEmpty(Visits(r.trace));
  }

  /** A round records the head as visited and finished, its scan, and the tree edges it found. */
  lemma ProcessTrace(es: seq<Edge>, s: Search)
    requires 1 <= |s.order| && s.head < |s.order| && Traced(es, s.order, s.head, s.trace)
    ensures var r := Process(es, s); 1 <= |r.order| && r.head <= |r.order| && Traced(es, r.order, r.head, r.trace)
  {
    var u := s.order[s.head];
    ProcessEvents(es, s);
    var p := Process(es, s);
    var before := s.order[..s.head];
    PrefixSnoc(s.order, s.head);
    PrefixAgrees(p.order, s.order, s.head + 1);
    PrefixAgrees(p.order, s.order, s.head);
    SuffixAgrees(p.order, s.order, 1);
    ScansSnoc(es, before, u);
  }

  /** The whole run keeps the invariant and its trace record, and ends with the queue empty. */
  lemma {:induction false} RunKeeps(es: seq<Edge>, n: nat, start: Vertex, s: Search)
    requires InRange(es, n, start) && Good(es, n, start, s) && Traced(es, s.order, s.head, s.trace)
    ensures var r := Run(es, start, s);
            Good(es, n, start, r) && r.head == |r.order| && Traced(es, r.order, r.head, r.trace)
    decreases Seen(es, start) - s.visited, if s.head < |s.order| then |s.order| - s.head else 0
  {
    if s.head < |s.order| {
      ProcessProgress(es, start, s);
      ProcessKeeps(es, n, start, s);
      ProcessTrace(es, s);
      RunKeeps(es, n, start, Process(es, s));
    }
  }

  /**
   * What BFS computes on ids 0..n: every reachable id gets its fewest-edge distance and every
   * other id keeps 0; the vertices enqueued are exactly the reachable ones, each once, from the
   * start, by non-decreasing distance; the visitor sees `visitVertex` and `finishVertex` for
   * each of them in that order, one `treeEdge` per reached vertex other than the start, in the
   * same order, and one `examineEdge` per neighbour scanned.
   */
  lemma BfsCorrect(es: seq<Edge>, n: nat, start: Vertex)
    requires InRange(es, n, start)
    ensures var r := BfsResult(es, n, start);
            |r.d| == n + 1 &&
            (forall i :: 0 <= i <= n ==>
               if Reachable(es, start, Vertex(i)) then Shortest(es, start, Vertex(i), r.d[i]) else r.d[i] == 0) &&
            (forall x :: x in r.order <==> Reachable(es, start, x)) &&
            |r.order| >= 1 && r.order[0] == start && DistinctVertices(r.order) &&
            (forall a, b :: 0 <= a <= b < |r.order| ==> D(r.d, r.order[a]) <= D(r.d, r.order[b])) &&
            Visits(r.trace) == r.order && Finishes(r.trace) == r.order && Trees(r.trace) == r.order[1..] &&
            Examined(r.trace) == Scans(es, r.order)
  {
    BfsFinished(es, n, start);
    var r := BfsResult(es, n, start);
    Finish(es, n, start, r.order, r.visited, r.d, r.via);
    assert r.order[..r.head] == r.order;
  }

  /** The search starts in a state that satisfies the invariant, with nothing reported yet. */
  lemma Start(es: seq<Edge>, n: nat, start: Vertex)
    requires InRange(es, n, start)
    ensures Good(es, n, start, Initial(n, start)) && Traced(es, [start], 0, [])
  {
  }

  /** The search ends with the invariant, its trace record, and every enqueued vertex scanned. */
  lemma BfsFinished(es: seq<Edge>, n: nat, start: Vertex)
    requires InRange(es, n, start)
    ensures var r := BfsResult(es, n, start);
            Good(es, n, start, r) && r.head == |r.order| && Traced(es, r.order, r.head, r.trace)
  {
    Start(es, n, start);
    RunKeeps(es, n, start, Initial(n, start));
  }

  // ----- The imperative search -----

  /** The facts the loops need to index `d`: its size and the ids on the queue record. */
  ghost predicate Bounded(n: nat, s: Search) {
    s.head <= |s.order| && |s.d| == n + 1 && forall k :: 0 <= k < |s.order| ==> 0 <= s.order[k].id <= n
  }

  lemma ProcessBounded(es: seq<Edge>, n: nat, start: Vertex, s: Search)
    requires InRange(es, n, start) && Bounded(n, s) && s.head < |s.order|
    ensures Bounded(n, Process(es, s))
  {
    var u := s.order[s.head];
    var r := Process(es, s);
    forall k | 0 <= k < |r.order| ensures 0 <= r.order[k].id <= n {
      if k < |s.order| {
        assert r.order[..|s.order|][k] == r.order[k];
      } else {
        TargetsMembers(es, u, r.order[k]);
        TargetFacts(es, n, start, u, r.order[k]);
      }
    }
  }

  /**
   * `BFS(graph, startVertex, visitor)` on a graph with `|vs|` vertices and edges `es`; the
   * distance vector has one entry per id 0..|vs|. It returns what `BfsResult` describes, so
   * every reachable id gets its fewest-edge distance and every other id keeps 0. `order` is the
   * order in which vertices were enqueued: exactly the reachable vertices, each once, by
   * non-decreasing distance, and the trace of visitor events follows it.
   */
  method Bfs(vs: seq<Vertex>, es: seq<Edge>, start: Vertex) returns (d: seq<int>, trace: seq<Event>, ghost order: seq<Vertex>)
    requires InRange(es, |vs|, start)
    ensures d == BfsResult(es, |vs|, start).d && trace == BfsResult(es, |vs|, start).trace
    ensures |d| == |vs| + 1
    ensures forall i :: 0 <= i <= |vs| ==>
              if Reachable(es, start, Vertex(i)) then Shortest(es, start, Vertex(i), d[i]) else d[i] == 0
    ensures forall x :: x in order <==> Reachable(es, start, x)
    ensures |order| >= 1 && order[0] == start && DistinctVertices(order)
    ensures forall a, b :: 0 <= a <= b < |order| ==> D(d, order[a]) <= D(d, order[b])
    ensures Visits(trace) == order && Finishes(trace) == order && Trees(trace) == order[1..]
    ensures Examined(trace) == Scans(es, order)
  {
    var n := |vs|;
    d := seq(n + 1, _ => 0);
    var queue := [start];
    var visited := {start};
    trace := [];
    ghost var s := Initial(n, start);
    while queue != []
      invariant Bounded(n, s)
      invariant d == s.d && queue == s.order[s.head..] && visited == s.visited && trace == s.trace
      invariant Run(es, start, s) == BfsResult(es, n, start)
      decreases Seen(es, start) - visited, |queue|
    {
      ProcessProgress(es, start, s);
      ProcessBounded(es, n, start, s);
      d, queue, visited, trace := ProcessHead(es, n, start, d, queue, visited, trace, s);
      s := Process(es, s);
    }
    BfsCorrect(es, n, start);
    order := s.order;
  }

  lemma ExploreAllSnoc(es: seq<Edge>, u: Vertex, s: Search, ws: seq<Vertex>, k: nat)
    requires k < |ws|
    ensures ExploreAll(es, u, s, ws[..k + 1]) == Explore(es, u, ExploreAll(es, u, s, ws[..k]), ws[k])
  {
    assert ws[..k + 1][..k] == ws[..k];
  }

  /** One round of the outer loop: pop the head, visit it, scan its neighbours, finish it. */
  method ProcessHead(es: seq<Edge>, n: nat, start: Vertex, d0: seq<int>, queue0: seq<Vertex>,
                     visited0: set<Vertex>, trace0: seq<Event>, ghost s: Search)
    returns (d: seq<int>, queue: seq<Vertex>, visited: set<Vertex>, trace: seq<Event>)
    requires InRange(es, n, start) && Bounded(n, s) && s.head < |s.order|
    requires d0 == s.d && queue0 == s.order[s.head..] && visited0 == s.visited && trace0 == s.trace
    ensures var r := Process(es, s);
            d == r.d && queue == r.order[r.head..] && visited == r.visited && trace == r.trace
  {
    var u := queue0[0];
    ghost var s1 := s.(trace := trace0 + [VisitVertex(u)]);
    ghost var r;
    d, queue, visited, trace, r := ScanNeighbours(es, n, start, u, d0, queue0[1..], visited0,
                                                  trace0 + [VisitVertex(u)], s1);
    trace := trace + [FinishVertex(u)];
  }

  /** The loop over the neighbours of `u`, the vertex just taken off the queue. */
  method ScanNeighbours(es: seq<Edge>, n: nat, start: Vertex, u: Vertex, d0: seq<int>, queue0: seq<Vertex>,
                        visited0: set<Vertex>, trace0: seq<Event>, ghost s: Search)
    returns (d: seq<int>, queue: seq<Vertex>, visited: set<Vertex>, trace: seq<Event>, ghost r: Search)
    requires InRange(es, n, start) && Bounded(n, s) && s.head < |s.order| && s.order[s.head] == u
    requires d0 == s.d && queue0 == s.order[s.head + 1..] && visited0 == s.visited && trace0 == s.trace
    ensures r == ExploreAll(es, u, s, Targets(es, u))
    ensures d == r.d && queue == r.order[s.head + 1..] && visited == r.visited && trace == r.trace
  {
    d, queue, visited, trace, r := d0, queue0, visited0, trace0, s;
    var neighbors := Targets(es, u);
    assert D(s.d, u) == d[u.id];
    var k := 0;
    while k < |neighbors|
      invariant 0 <= k <= |neighbors|
      invariant r == ExploreAll(es, u, s, neighbors[..k])
      invariant d == r.d && queue == r.order[s.head + 1..] && visited == r.visited && trace == r.trace
      invariant r.head == s.head && |r.order| >= |s.order| && |r.d| == n + 1 && D(r.d, u) == d[u.id]
    {
      ghost var r0 := r;
      var vertex := neighbors[k];
      ExploreAllSnoc(es, u, s, neighbors, k);
      r := Explore(es, u, r0, vertex);
      var e := NewPlainEdge(u, vertex);
      trace := trace + [ExamineEdge(e)];
      if vertex !in visited {
        TargetsMembers(es, u, vertex);
        TargetFacts(es, n, start, u, vertex);
        visited := visited + {vertex};
        queue := queue + [vertex];
        d := d[vertex.id := d[u.id] + 1];
        trace := trace + [TreeEdge(e)];
        AppendSuffix(r0.order, [vertex], s.head + 1);
        assert r == Search(r0.order + [vertex], r0.head, visited, d, r0.via[vertex := u], trace);
      } else {
        assert r == r0.(trace := trace);
      }
      k := k + 1;
    }
    assert neighbors[..k] == neighbors;
  }
}
