// Edmonds-Karp (include/algorithms/flowNetwork/EdmondsKarp.h).
//
// `bfs` clears `parent` and runs a breadth-first search whose treeEdge callback records
// `parent[target] = source`. The class comment promises a search of the residual network;
// the search is modelled that way: from each dequeued vertex, the edges of its list are
// scanned in order, and an edge with flow < capacity to a vertex not yet seen is a tree
// edge. `computeMaxFlow` then takes the minimum residual capacity of the hops from the
// sink back to the source and pushes it onto every hop with `addFlow`.

module EdmondsKarp {
  import opened GraphTypes
  import opened FlowNetworks
  import opened FlowTheory
  import opened AugmentingPaths

  /**
   * The state of the search: `visited` is the set of queued vertices, `parent` a search tree
   * over the queue whose hops have residual capacity, `level` the number of tree hops from the
   * source to each queued vertex, and the first `head` queued vertices have all their residual
   * edges leading to queued vertices at most one level further from the source.
   */
  ghost predicate Searching(es: seq<FlowEdge>, ls: map<Vertex, seq<nat>>, source: Vertex, parent: map<Vertex, Vertex>,
                            visited: set<Vertex>, level: map<Vertex, nat>, queue: seq<Vertex>, head: nat)
    requires Wf(es, ls)
  {
    ResidualTree(es, ls, source, parent, visited, queue) && head <= |queue| &&
    QueueLevels(level, parent, source, queue, head) && HeadsNear(es, ls, level, queue, head)
  }

  /** `parent` is a search tree over the queue, `visited` its vertices, and every hop has residual capacity. */
  ghost predicate ResidualTree(es: seq<FlowEdge>, ls: map<Vertex, seq<nat>>, source: Vertex, parent: map<Vertex, Vertex>,
                               visited: set<Vertex>, queue: seq<Vertex>)
    requires Wf(es, ls)
  {
    visited == (set x | x in queue) &&
    SearchTree(parent, queue, source) &&
    forall v :: v in parent ==> HopOf(es, ls, parent[v], v).Some?
  }

  /** The level of a queued vertex, 0 for any other. */
  function LevelOf(level: map<Vertex, nat>, v: Vertex): nat {
    if v in level then level[v] else 0
  }

  /**
   * The levels of the queue: the source at 0, every tree child one above its parent,
   * non-decreasing in queue order, and none more than one above the head's.
   */
  ghost predicate QueueLevels(level: map<Vertex, nat>, parent: map<Vertex, Vertex>, source: Vertex,
                              queue: seq<Vertex>, head: nat)
  {
    level.Keys == (set x | x in queue) && source in level && level[source] == 0 &&
    (forall v :: v in parent ==> v in level && parent[v] in level && level[v] == level[parent[v]] + 1) &&
    (forall a, b :: 0 <= a <= b < |queue| ==> LevelOf(level, queue[a]) <= LevelOf(level, queue[b])) &&
    (head < |queue| ==> forall a :: 0 <= a < |queue| ==> LevelOf(level, queue[a]) <= LevelOf(level, queue[head]) + 1)
  }

  /** The first `k` edges of `u`'s list are saturated or lead to a queued vertex at most one level above `u`. */
  ghost predicate NearScanned(es: seq<FlowEdge>, ls: map<Vertex, seq<nat>>, level: map<Vertex, nat>, u: Vertex, k: nat)
    requires Wf(es, ls)
  {
    k <= |ListOf(ls, u)| &&
    forall j :: 0 <= j < k ==>
      ListOf(ls, u)[j] < |es| &&
      (es[ListOf(ls, u)[j]].flow < es[ListOf(ls, u)[j]].capacity ==>
         es[ListOf(ls, u)[j]].target in level && level[es[ListOf(ls, u)[j]].target] <= LevelOf(level, u) + 1)
  }

  /** All of `u`'s list is scanned. */
  ghost predicate Near(es: seq<FlowEdge>, ls: map<Vertex, seq<nat>>, level: map<Vertex, nat>, u: Vertex)
    requires Wf(es, ls)
  {
    NearScanned(es, ls, level, u, |ListOf(ls, u)|)
  }

  /** The first `head` queued vertices are scanned. */
  ghost predicate HeadsNear(es: seq<FlowEdge>, ls: map<Vertex, seq<nat>>, level: map<Vertex, nat>, queue: seq<Vertex>, head: nat)
    requires Wf(es, ls)
  {
    forall m :: 0 <= m < head && m < |queue| ==> Near(es, ls, level, queue[m])
  }

  /** Enqueueing an unseen target `t` of a residual edge of the head `u`, one level above `u`, keeps the search state. */
  lemma Discover(es: seq<FlowEdge>, ls: map<Vertex, seq<nat>>, source: Vertex, parent: map<Vertex, Vertex>,
                 visited: set<Vertex>, level: map<Vertex, nat>, queue: seq<Vertex>, head: nat, u: Vertex, t: Vertex)
    requires Wf(es, ls) && Searching(es, ls, source, parent, visited, level, queue, head)
    requires head < |queue| && queue[head] == u && t !in visited && HopOf(es, ls, u, t).Some?
    ensures Searching(es, ls, source, parent[t := u], visited + {t}, level[t := LevelOf(level, u) + 1], queue + [t], head)
  {
    assert u in queue;
    TreeGrows(es, ls, source, parent, visited, queue, u, t);
    LevelsGrow(level, parent, source, queue, head, u, t);
    HeadsStayNear(es, ls, level, queue, head, t, LevelOf(level, u) + 1);
  }

  /** Adding the residual hop u -> t for an unseen `t` keeps the residual search tree. */
  lemma TreeGrows(es: seq<FlowEdge>, ls: map<Vertex, seq<nat>>, source: Vertex, parent: map<Vertex, Vertex>,
                  visited: set<Vertex>, queue: seq<Vertex>, u: Vertex, t: Vertex)
    requires Wf(es, ls) && ResidualTree(es, ls, source, parent, visited, queue)
    requires u in queue && t !in visited && HopOf(es, ls, u, t).Some?
    ensures ResidualTree(es, ls, source, parent[t := u], visited + {t}, queue + [t])
  {
    assert t !in queue;
    SearchTreeExtend(parent, queue, source, u, t);
    SetOfAppend(queue, t);
    HopsGrow(es, ls, parent, u, t, parent[t := u]);
  }

  /** Every tree hop stays a residual hop when the hop u -> t joins them. */
  lemma HopsGrow(es: seq<FlowEdge>, ls: map<Vertex, seq<nat>>, parent: map<Vertex, Vertex>, u: Vertex, t: Vertex,
                 parent1: map<Vertex, Vertex>)
    requires Wf(es, ls) && HopOf(es, ls, u, t).Some? && parent1 == parent[t := u]
    requires forall v :: v in parent ==> HopOf(es, ls, parent[v], v).Some?
    ensures forall v :: v in parent1 ==> HopOf(es, ls, parent1[v], v).Some?
  {
    forall v | v in parent1 ensures HopOf(es, ls, parent1[v], v).Some? {
      if v != t {
        assert parent1[v] == parent[v];
      }
    }
  }

  /** Queueing an unseen `t` as a child of the head `u`, one level above it, keeps the queue's levels. */
  lemma LevelsGrow(level: map<Vertex, nat>, parent: map<Vertex, Vertex>, source: Vertex, queue: seq<Vertex>,
                   head: nat, u: Vertex, t: Vertex)
    requires QueueLevels(level, parent, source, queue, head) && head < |queue| && queue[head] == u && t !in level
    ensures QueueLevels(level[t := LevelOf(level, u) + 1], parent[t := u], source, queue + [t], head)
  {
    var level1, parent1, q1 := level[t := LevelOf(level, u) + 1], parent[t := u], queue + [t];
    SetOfAppend(queue, t);
    assert u in level by {
      assert u in set x | x in queue;
    }
    assert forall x :: x in queue ==> x != t by {
      forall x | x in queue ensures x != t {
        assert x in set y | y in queue;
      }
    }
    ChildLevels(level, parent, u, t);
    forall a, b | 0 <= a <= b < |q1| ensures LevelOf(level1, q1[a]) <= LevelOf(level1, q1[b]) {
      if b < |queue| {
        assert LevelOf(level1, q1[a]) == LevelOf(level, queue[a]) && LevelOf(level1, q1[b]) == LevelOf(level, queue[b]);
      } else if a < |queue| {
        assert LevelOf(level1, q1[a]) == LevelOf(level, queue[a]);
      }
    }
    forall a | 0 <= a < |q1| ensures LevelOf(level1, q1[a]) <= LevelOf(level1, q1[head]) + 1 {
      if a < |queue| {
        assert LevelOf(level1, q1[a]) == LevelOf(level, queue[a]);
      }
    }
  }

  /** A new child `t` of `u` one level above it keeps every child one level above its parent. */
  lemma ChildLevels(level: map<Vertex, nat>, parent: map<Vertex, Vertex>, u: Vertex, t: Vertex)
    requires forall v :: v in parent ==> v in level && parent[v] in level && level[v] == level[parent[v]] + 1
    requires u in level && t !in level
    ensures var level1, parent1 := level[t := LevelOf(level, u) + 1], parent[t := u];
      forall v :: v in parent1 ==> v in level1 && parent1[v] in level1 && level1[v] == level1[parent1[v]] + 1
  {
    var level1, parent1 := level[t := LevelOf(level, u) + 1], parent[t := u];
    forall v | v in parent1 ensures v in level1 && parent1[v] in level1 && level1[v] == level1[parent1[v]] + 1 {
      if v != t {
        assert v in parent && parent1[v] == parent[v];
      }
    }
  }

  /** The scanned part of a list stays scanned when an unseen vertex gets a level. */
  lemma NearGrows(es: seq<FlowEdge>, ls: map<Vertex, seq<nat>>, level: map<Vertex, nat>, t: Vertex, x: nat, u: Vertex, k: nat)
    requires Wf(es, ls) && NearScanned(es, ls, level, u, k) && t !in level && u != t
    ensures NearScanned(es, ls, level[t := x], u, k)
  {
  }

  /** The scanned vertices before `head` stay scanned as the queue grows. */
  lemma HeadsStayNear(es: seq<FlowEdge>, ls: map<Vertex, seq<nat>>, level: map<Vertex, nat>, queue: seq<Vertex>,
                      head: nat, t: Vertex, x: nat)
    requires Wf(es, ls) && head <= |queue| && HeadsNear(es, ls, level, queue, head)
    requires t !in level && level.Keys == (set y | y in queue)
    ensures HeadsNear(es, ls, level[t := x], queue + [t], head)
  {
    forall m | 0 <= m < head && m < |queue + [t]| ensures Near(es, ls, level[t := x], (queue + [t])[m]) {
      assert (queue + [t])[m] == queue[m];
      assert queue[m] in set y | y in queue;
      NearGrows(es, ls, level, t, x, queue[m], |ListOf(ls, queue[m])|);
    }
  }

  /** No queued vertex is more than one level above the head. */
  lemma TopBound(level: map<Vertex, nat>, parent: map<Vertex, Vertex>, source: Vertex, queue: seq<Vertex>,
                 head: nat, t: Vertex)
    requires QueueLevels(level, parent, source, queue, head) && head < |queue| && t in (set x | x in queue)
    ensures t in level && level[t] <= LevelOf(level, queue[head]) + 1
  {
    var a :| 0 <= a < |queue| && queue[a] == t;
    assert LevelOf(level, queue[a]) <= LevelOf(level, queue[head]) + 1;
  }

  /** Dequeuing a scanned head keeps the search state. */
  lemma Advance(es: seq<FlowEdge>, ls: map<Vertex, seq<nat>>, source: Vertex, parent: map<Vertex, Vertex>,
                visited: set<Vertex>, level: map<Vertex, nat>, queue: seq<Vertex>, head: nat)
    requires Wf(es, ls) && Searching(es, ls, source, parent, visited, level, queue, head) && head < |queue|
    requires Near(es, ls, level, queue[head])
    ensures Searching(es, ls, source, parent, visited, level, queue, head + 1)
  {
    if head + 1 < |queue| {
      forall a | 0 <= a < |queue| ensures LevelOf(level, queue[a]) <= LevelOf(level, queue[head + 1]) + 1 {
        assert LevelOf(level, queue[a]) <= LevelOf(level, queue[head]) + 1;
        assert LevelOf(level, queue[head]) <= LevelOf(level, queue[head + 1]);
      }
    }
  }

  /** A scanned vertex has all its residual edges leading into the queue. */
  lemma NearIsClosed(es: seq<FlowEdge>, ls: map<Vertex, seq<nat>>, level: map<Vertex, nat>, queue: seq<Vertex>, u: Vertex)
    requires Wf(es, ls) && Near(es, ls, level, u) && level.Keys == (set y | y in queue)
    ensures Closed(es, ls, u, queue)
  {
    forall j | 0 <= j < |ListOf(ls, u)| && es[ListOf(ls, u)[j]].flow < es[ListOf(ls, u)[j]].capacity
      ensures es[ListOf(ls, u)[j]].target in queue
    {
      assert es[ListOf(ls, u)[j]].target in set y | y in queue;
    }
  }

  /** A walk from the source in which every step u -> v has an edge u -> v with residual capacity. */
  ghost predicate ResidualWalk(es: seq<FlowEdge>, ls: map<Vertex, seq<nat>>, source: Vertex, w: seq<Vertex>)
    requires Wf(es, ls)
  {
    |w| > 0 && w[0] == source && forall m :: 0 <= m < |w| - 1 ==> HopOf(es, ls, w[m], w[m + 1]).Some?
  }

  /** With every levelled vertex scanned, a residual walk of n steps from the source ends at a vertex of level at most n. */
  lemma {:induction false} WalkBound(es: seq<FlowEdge>, ls: map<Vertex, seq<nat>>, level: map<Vertex, nat>,
                                     source: Vertex, w: seq<Vertex>)
    requires Wf(es, ls) && source in level && level[source] == 0
    requires forall v :: v in level ==> Near(es, ls, level, v)
    requires ResidualWalk(es, ls, source, w)
    ensures w[|w| - 1] in level && level[w[|w| - 1]] <= |w| - 1
    decreases |w|
  {
    if |w| > 1 {
      var w0 := w[..|w| - 1];
      assert ResidualWalk(es, ls, source, w0) by {
        forall m | 0 <= m < |w0| - 1 ensures HopOf(es, ls, w0[m], w0[m + 1]).Some? {
          assert w0[m] == w[m] && w0[m + 1] == w[m + 1];
        }
      }
      WalkBound(es, ls, level, source, w0);
      var u, v := w[|w| - 2], w[|w| - 1];
      assert w0[|w0| - 1] == u;
      assert HopOf(es, ls, w[|w| - 2], w[|w| - 2 + 1]).Some?;
      var i := HopOf(es, ls, u, v).value;
      InHomeList(es, ls, i);
      var j :| 0 <= j < |ListOf(ls, u)| && ListOf(ls, u)[j] == i;
      assert Near(es, ls, level, u);
    }
  }

  /** The tree path to a queued vertex has one more vertex than the vertex's level. */
  lemma {:induction false} PathLength(parent: map<Vertex, Vertex>, order: seq<Vertex>, source: Vertex,
                                      level: map<Vertex, nat>, v: Vertex)
    requires SearchTree(parent, order, source) && v in order && source in level && level[source] == 0
    requires forall x :: x in parent ==> x in level && parent[x] in level && level[x] == level[parent[x]] + 1
    ensures v in level && |PathFrom(parent, order, source, v)| == level[v] + 1
    decreases IndexIn(order, v)
  {
    if v != source {
      PathLength(parent, order, source, level, parent[v]);
    }
  }

  /** When every queued vertex is scanned, so is every levelled one. */
  lemma AllNear(es: seq<FlowEdge>, ls: map<Vertex, seq<nat>>, level: map<Vertex, nat>, queue: seq<Vertex>)
    requires Wf(es, ls) && HeadsNear(es, ls, level, queue, |queue|) && level.Keys == (set x | x in queue)
    ensures forall v :: v in level ==> Near(es, ls, level, v)
  {
    forall v | v in level ensures Near(es, ls, level, v) {
      assert v in set x | x in queue;
      var m :| 0 <= m < |queue| && queue[m] == v;
    }
  }

  /**
   * At the end of the search, every residual walk from the source ends at a queued vertex
   * whose tree path back to the source has no more vertices than the walk.
   */
  lemma Shortest(es: seq<FlowEdge>, ls: map<Vertex, seq<nat>>, source: Vertex, parent: map<Vertex, Vertex>,
                 visited: set<Vertex>, level: map<Vertex, nat>, queue: seq<Vertex>)
    requires Wf(es, ls) && Searching(es, ls, source, parent, visited, level, queue, |queue|)
    ensures forall w :: ResidualWalk(es, ls, source, w) ==>
      w[|w| - 1] in queue && |PathFrom(parent, queue, source, w[|w| - 1])| <= |w|
  {
    AllNear(es, ls, level, queue);
    forall w | ResidualWalk(es, ls, source, w)
      ensures w[|w| - 1] in queue && |PathFrom(parent, queue, source, w[|w| - 1])| <= |w|
    {
      WalkBound(es, ls, level, source, w);
      assert w[|w| - 1] in set x | x in queue;
      PathLength(parent, queue, source, level, w[|w| - 1]);
    }
  }

  /**
   * The smallest residual capacity among the hops of the tree path from `v` back to the
   * source that have any, INT_MAX when none has: the value the first loop of a round computes.
   */
  ghost function PathMin(es: seq<FlowEdge>, ls: map<Vertex, seq<nat>>, parent: map<Vertex, Vertex>,
                         order: seq<Vertex>, source: Vertex, v: Vertex): int
    requires Wf(es, ls) && SearchTree(parent, order, source) && v in order
    decreases IndexIn(order, v)
  {
    if v == source then IntMax
    else if HopOf(es, ls, parent[v], v).Some? then
      Min(HopResidual(es, ls, parent[v], v), PathMin(es, ls, parent, order, source, parent[v]))
    else PathMin(es, ls, parent, order, source, parent[v])
  }

  /** The path minimum never exceeds its starting value INT_MAX. */
  lemma {:induction false} PathMinAtMost(es: seq<FlowEdge>, ls: map<Vertex, seq<nat>>, parent: map<Vertex, Vertex>,
                                         order: seq<Vertex>, source: Vertex, v: Vertex)
    requires Wf(es, ls) && SearchTree(parent, order, source) && v in order
    ensures PathMin(es, ls, parent, order, source, v) <= IntMax
    decreases IndexIn(order, v)
  {
    if v != source {
      PathMinAtMost(es, ls, parent, order, source, parent[v]);
    }
  }

  /** The residual capacities of the hops p[m + 1] -> p[m] of `p`, in order. */
  ghost function Residuals(es: seq<FlowEdge>, ls: map<Vertex, seq<nat>>, p: seq<Vertex>): (r: seq<int>)
    requires Wf(es, ls)
    ensures |r| == if |p| < 2 then 0 else |p| - 1
    ensures forall m :: 0 <= m < |r| ==> r[m] == HopResidual(es, ls, p[m + 1], p[m])
    decreases |p|
  {
    if |p| < 2 then [] else [HopResidual(es, ls, p[1], p[0])] + Residuals(es, ls, p[1..])
  }

  /** Some hop of `p` has residual capacity exactly `f`. */
  ghost predicate SomeHopIs(es: seq<FlowEdge>, ls: map<Vertex, seq<nat>>, p: seq<Vertex>, f: int)
    requires Wf(es, ls)
  {
    f in Residuals(es, ls, p)
  }

  /** Putting a hop v <- rest[0] in front of a path keeps the lower bound the smaller of the two. */
  lemma {:induction false} HopsPrepend(es: seq<FlowEdge>, ls: map<Vertex, seq<nat>>, v: Vertex, rest: seq<Vertex>, f: int, g: int)
    requires Wf(es, ls) && |rest| >= 1 && HopsAtLeast(es, ls, rest, g, 0)
    requires f <= g && HopResidual(es, ls, rest[0], v) >= f
    ensures HopsAtLeast(es, ls, [v] + rest, f, 0)
  {
    var p := [v] + rest;
    forall m | 0 <= m < |p| - 1 ensures HopResidual(es, ls, p[m + 1], p[m]) >= f {
      if m > 0 {
        assert p[m + 1] == rest[m - 1 + 1] && p[m] == rest[m - 1];
        assert HopResidual(es, ls, rest[m - 1 + 1], rest[m - 1]) >= g;
      }
    }
  }

  /** A hop of `rest` is a hop of `[v] + rest`, and so is the new first hop. */
  lemma SomeHopPrepend(es: seq<FlowEdge>, ls: map<Vertex, seq<nat>>, v: Vertex, rest: seq<Vertex>, f: int)
    requires Wf(es, ls) && |rest| >= 1
    requires HopResidual(es, ls, rest[0], v) == f || SomeHopIs(es, ls, rest, f)
    ensures SomeHopIs(es, ls, [v] + rest, f)
  {
    var p := [v] + rest;
    assert p[1..] == rest && p[0] == v && p[1] == rest[0];
    assert Residuals(es, ls, p) == [HopResidual(es, ls, rest[0], v)] + Residuals(es, ls, rest);
  }

  /**
   * When every tree hop has residual capacity, the path minimum is positive, at most INT_MAX,
   * bounds every hop of the path, and is INT_MAX or the residual capacity of one of its hops.
   */
  lemma {:induction false} PathMinBounds(es: seq<FlowEdge>, ls: map<Vertex, seq<nat>>, parent: map<Vertex, Vertex>,
                                         order: seq<Vertex>, source: Vertex, v: Vertex)
    requires Wf(es, ls) && SearchTree(parent, order, source) && v in order
    requires forall w :: w in parent ==> HopResidual(es, ls, parent[w], w) > 0
    ensures var f, p := PathMin(es, ls, parent, order, source, v), PathFrom(parent, order, source, v);
      0 < f <= IntMax && HopsAtLeast(es, ls, p, f, 0) && (f == IntMax || SomeHopIs(es, ls, p, f))
    decreases IndexIn(order, v)
  {
    if v != source {
      var u := parent[v];
      PathMinBounds(es, ls, parent, order, source, u);
      var rest := PathFrom(parent, order, source, u);
      var f, g := PathMin(es, ls, parent, order, source, v), PathMin(es, ls, parent, order, source, u);
      assert PathFrom(parent, order, source, v) == [v] + rest;
      HopsPrepend(es, ls, v, rest, f, g);
      if f != IntMax {
        SomeHopPrepend(es, ls, v, rest, f);
      }
    }
  }

  /** One step of the first loop of a round: folding the hop parent[v] -> v into `f` keeps the running minimum. */
  lemma PathMinStep(es: seq<FlowEdge>, ls: map<Vertex, seq<nat>>, parent: map<Vertex, Vertex>,
                    order: seq<Vertex>, source: Vertex, v: Vertex, f: int)
    requires Wf(es, ls) && SearchTree(parent, order, source) && v in order && v != source
    ensures parent[v] in order && IndexIn(order, parent[v]) < IndexIn(order, v)
    ensures var g := if HopOf(es, ls, parent[v], v).Some? then Min(f, HopResidual(es, ls, parent[v], v)) else f;
            Min(g, PathMin(es, ls, parent, order, source, parent[v])) == Min(f, PathMin(es, ls, parent, order, source, v))
  {
    var u := parent[v];
    var some := HopOf(es, ls, u, v).Some?;
    var h := if some then HopResidual(es, ls, u, v) else 0;
    FoldMin(f, some, h, PathMin(es, ls, parent, order, source, v), PathMin(es, ls, parent, order, source, u));
  }

  /** Folding one more value into a running minimum, in either order, gives the same minimum. */
  lemma FoldMin(f: int, some: bool, h: int, a: int, b: int)
    requires a == if some then Min(h, b) else b
    ensures Min(if some then Min(f, h) else f, b) == Min(f, a)
  {
  }

  /**
   * The state of the scan of `u`'s list after `k` edges: the search state, the queue grown from
   * `queue0` with fewer vertices left to discover when it grew, and the first `k` edges scanned.
   */
  ghost predicate Scanning(es: seq<FlowEdge>, ls: map<Vertex, seq<nat>>, source: Vertex, u: Vertex,
                           parent: map<Vertex, Vertex>, visited: set<Vertex>, level: map<Vertex, nat>,
                           queue: seq<Vertex>, queue0: seq<Vertex>, head: nat, k: nat)
    requires Wf(es, ls)
  {
    head < |queue0| && queue0[head] == u && queue0 <= queue &&
    (queue == queue0 || Unvisited(ls, source, queue) < Unvisited(ls, source, queue0)) &&
    Searching(es, ls, source, parent, visited, level, queue, head) &&
    NearScanned(es, ls, level, u, k)
  }

  /**
   * Scanning edge `k` of `u`'s list: an edge with residual capacity to an unseen target makes `u`
   * its parent and enqueues it one level above `u`; either way the scan state holds after `k + 1` edges.
   */
  lemma ScanEdge(es: seq<FlowEdge>, ls: map<Vertex, seq<nat>>, source: Vertex, u: Vertex,
                 parent: map<Vertex, Vertex>, visited: set<Vertex>, level: map<Vertex, nat>,
                 queue: seq<Vertex>, queue0: seq<Vertex>, head: nat, k: nat)
    requires Wf(es, ls) && Scanning(es, ls, source, u, parent, visited, level, queue, queue0, head, k)
    requires k < |ListOf(ls, u)|
    ensures ListOf(ls, u)[k] < |es|
    ensures var e := es[ListOf(ls, u)[k]];
            if e.flow < e.capacity && e.target !in visited then
              Scanning(es, ls, source, u, parent[e.target := u], visited + {e.target},
                       level[e.target := LevelOf(level, u) + 1], queue + [e.target], queue0, head, k + 1)
            else Scanning(es, ls, source, u, parent, visited, level, queue, queue0, head, k + 1)
  {
    ListBounds(es, ls, u);
    var i := ListOf(ls, u)[k];
    if es[i].flow < es[i].capacity && es[i].target !in visited {
      ScanNew(es, ls, source, u, parent, visited, level, queue, queue0, head, k, es[i].target);
    } else {
      ScanOld(es, ls, source, u, parent, visited, level, queue, queue0, head, k);
    }
  }

  /** An edge with residual capacity to an unseen `t` enqueues `t` one level above `u`, with parent `u`. */
  lemma ScanNew(es: seq<FlowEdge>, ls: map<Vertex, seq<nat>>, source: Vertex, u: Vertex,
                parent: map<Vertex, Vertex>, visited: set<Vertex>, level: map<Vertex, nat>,
                queue: seq<Vertex>, queue0: seq<Vertex>, head: nat, k: nat, t: Vertex)
    requires Wf(es, ls) && Scanning(es, ls, source, u, parent, visited, level, queue, queue0, head, k)
    requires k < |ListOf(ls, u)| && ListOf(ls, u)[k] < |es| && es[ListOf(ls, u)[k]].target == t
    requires es[ListOf(ls, u)[k]].flow < es[ListOf(ls, u)[k]].capacity && t !in visited
    ensures Scanning(es, ls, source, u, parent[t := u], visited + {t},
                     level[t := LevelOf(level, u) + 1], queue + [t], queue0, head, k + 1)
  {
    assert queue[head] == u by {
      assert queue[head] == queue0[head];
    }
    ListHop(es, ls, u, k);
    Discover(es, ls, source, parent, visited, level, queue, head, u, t);
    UnvisitedShrinks(ls, source, queue, t);
    NearGrows(es, ls, level, t, LevelOf(level, u) + 1, u, k);
    NearStep(es, ls, level[t := LevelOf(level, u) + 1], u, k);
  }

  /** A residual edge in `u`'s list is an edge u -> target with residual capacity, and its target has a list. */
  lemma ListHop(es: seq<FlowEdge>, ls: map<Vertex, seq<nat>>, u: Vertex, k: nat)
    requires Wf(es, ls) && k < |ListOf(ls, u)| && ListOf(ls, u)[k] < |es|
    requires es[ListOf(ls, u)[k]].flow < es[ListOf(ls, u)[k]].capacity
    ensures HopOf(es, ls, u, es[ListOf(ls, u)[k]].target).Some? && es[ListOf(ls, u)[k]].target in ls
  {
    WfFacts(es, ls);
    var i := ListOf(ls, u)[k];
    assert u in ls && Home(es, i) == u;
  }

  /** An edge that is saturated or leads to a queued vertex changes nothing but the scan position. */
  lemma ScanOld(es: seq<FlowEdge>, ls: map<Vertex, seq<nat>>, source: Vertex, u: Vertex,
                parent: map<Vertex, Vertex>, visited: set<Vertex>, level: map<Vertex, nat>,
                queue: seq<Vertex>, queue0: seq<Vertex>, head: nat, k: nat)
    requires Wf(es, ls) && Scanning(es, ls, source, u, parent, visited, level, queue, queue0, head, k)
    requires k < |ListOf(ls, u)| && ListOf(ls, u)[k] < |es|
    requires !(es[ListOf(ls, u)[k]].flow < es[ListOf(ls, u)[k]].capacity && es[ListOf(ls, u)[k]].target !in visited)
    ensures Scanning(es, ls, source, u, parent, visited, level, queue, queue0, head, k + 1)
  {
    var i := ListOf(ls, u)[k];
    assert queue[head] == u by {
      assert queue[head] == queue0[head];
    }
    if es[i].flow < es[i].capacity {
      TopBound(level, parent, source, queue, head, es[i].target);
    }
    NearStep(es, ls, level, u, k);
  }

  /** Edge `k` of `u`'s list, saturated or leading at most one level above `u`, extends the scanned part. */
  lemma NearStep(es: seq<FlowEdge>, ls: map<Vertex, seq<nat>>, level: map<Vertex, nat>, u: Vertex, k: nat)
    requires Wf(es, ls) && NearScanned(es, ls, level, u, k) && k < |ListOf(ls, u)|
    requires var i := ListOf(ls, u)[k];
      i < |es| && (es[i].flow < es[i].capacity ==> es[i].target in level && level[es[i].target] <= LevelOf(level, u) + 1)
    ensures NearScanned(es, ls, level, u, k + 1)
  {
  }

  /** The bottleneck of the sink path of a residual search tree is positive and bounds every hop. */
  lemma Bottleneck(es: seq<FlowEdge>, ls: map<Vertex, seq<nat>>, parent: map<Vertex, Vertex>,
                   order: seq<Vertex>, source: Vertex, sink: Vertex, f: int)
    requires Wf(es, ls) && SearchTree(parent, order, source) && sink in parent
    requires forall w :: w in parent ==> HopOf(es, ls, parent[w], w).Some?
    requires f == PathMin(es, ls, parent, order, source, sink)
    ensures f > 0 && HopsAtLeast(es, ls, PathFrom(parent, order, source, sink), f, 0)
  {
    forall w | w in parent ensures HopResidual(es, ls, parent[w], w) > 0 {
    }
    PathMinBounds(es, ls, parent, order, source, sink);
  }

  /**
   * The flow after some rounds: feasible, conserving, of the starting shape, and `value` more
   * leaving the source than at the start.
   */
  ghost predicate Augmented(es0: seq<FlowEdge>, es: seq<FlowEdge>, source: Vertex, sink: Vertex, value: int) {
    |es0| % 2 == 0 && |es| % 2 == 0 && Feasible(es) && Conserves(es, source, sink) && SameShape(es0, es) &&
    value == NetOut(es, source) - NetOut(es0, source)
  }

  /**
   * One round of `computeMaxFlow`: a push of `f` along a source-sink path keeps the flow
   * augmented, by `f` more, and leaves the capacity out of the source alone.
   */
  lemma AugmentStep(es0: seq<FlowEdge>, before: seq<FlowEdge>, after: seq<FlowEdge>, source: Vertex, sink: Vertex,
                    value: int, f: int)
    requires Augmented(es0, before, source, sink, value) && source != sink
    requires Feasible(after) && SameShape(before, after)
    requires forall x :: NetOut(after, x) == NetOut(before, x) + (if x == source then f else 0) - (if x == sink then f else 0)
    ensures Augmented(es0, after, source, sink, value + f)
    ensures CapOut(after, source) == CapOut(before, source)
  {
    CapSumShape(before, after, {source}, All, |before|);
    ShapeTransitive(es0, before, after);
    assert NetOut(after, source) == NetOut(before, source) + f;
  }

  class EdmondsKarpSolver {
    const network: FlowNetwork
    /** The parent of every vertex the last search reached, the source excepted. */
    var parent: map<Vertex, Vertex>

    constructor (network: FlowNetwork)
      ensures this.network == network && parent == map[]
    {
      this.network := network;
      parent := map[];
    }

    /**
     * `bfs`: the new `parent` is a search tree rooted at the source whose every hop still has
     * residual capacity; the search stops only when no residual edge leaves the vertices it
     * reached, and the tree path to each of them is a shortest residual path: no walk from the
     * source over edges with residual capacity reaches it in fewer steps. The result says
     * whether the sink has a parent.
     */
    method Bfs(source: Vertex, sink: Vertex) returns (found: bool, ghost order: seq<Vertex>)
      requires network.Valid()
      modifies this`parent
      ensures found <==> sink in parent
      ensures SearchTree(parent, order, source)
      ensures forall v :: v in parent ==> network.HasResidualCapacity(parent[v], v)
      ensures ResidualClosed(network.edges, set x | x in order)
      ensures forall w :: ResidualWalk(network.edges, network.lists, source, w) ==>
        w[|w| - 1] in order && |PathFrom(parent, order, source, w[|w| - 1])| <= |w|
    {
      ghost var es, ls := network.edges, network.lists;
      parent := map[];
      var visited := {source};
      var queue := [source];
      ghost var level := map[source := 0];
      assert (set x | x in queue) == {source};
      var head := 0;
      while head < |queue|
        invariant 0 <= head <= |queue|
        invariant Searching(es, ls, source, parent, visited, level, queue, head)
        decreases Unvisited(ls, source, queue), |queue| - head
      {
        var u := queue[head];
        visited, queue, level := ScanNeighbours(source, u, head, visited, level, queue);
        assert queue[head] == u;
        Advance(es, ls, source, parent, visited, level, queue, head);
        head := head + 1;
      }
      found := sink in parent;
      order := queue;
      forall m | 0 <= m < |order| ensures Closed(es, ls, order[m], order) {
        NearIsClosed(es, ls, level, order, order[m]);
      }
      AllClosed(es, ls, order);
      Shortest(es, ls, source, parent, visited, level, queue);
    }

    /**
     * The inner loop of the search for a dequeued `u`: every edge of `u`'s list with flow <
     * capacity whose target is unseen makes `u` that target's parent and enqueues it.
     */
    method ScanNeighbours(source: Vertex, u: Vertex, ghost head: nat, visited0: set<Vertex>,
                          ghost level0: map<Vertex, nat>, queue0: seq<Vertex>)
      returns (visited: set<Vertex>, queue: seq<Vertex>, ghost level: map<Vertex, nat>)
      requires network.Valid() && head < |queue0| && queue0[head] == u
      requires Searching(network.edges, network.lists, source, parent, visited0, level0, queue0, head)
      modifies this`parent
      ensures Searching(network.edges, network.lists, source, parent, visited, level, queue, head)
      ensures queue0 <= queue && Near(network.edges, network.lists, level, u)
      ensures queue == queue0 || Unvisited(network.lists, source, queue) < Unvisited(network.lists, source, queue0)
    {
      ghost var es, ls := network.edges, network.lists;
      var adj := network.GetAdjacent(u);
      ghost var ids := ListOf(ls, u);
      ListTargets(es, ls, u);
      visited, queue, level := visited0, queue0, level0;
      var k := 0;
      while k < |adj|
        invariant 0 <= k <= |adj| == |ids| && (forall j :: 0 <= j < |adj| ==> adj[j] == es[ids[j]])
        invariant Scanning(es, ls, source, u, parent, visited, level, queue, queue0, head, k)
        decreases |adj| - k
      {
        var e := adj[k];
        ScanEdge(es, ls, source, u, parent, visited, level, queue, queue0, head, k);
        if e.flow < e.capacity && e.target !in visited {
          parent := parent[e.target := u];
          visited := visited + {e.target};
          level := level[e.target := LevelOf(level, u) + 1];
          queue := queue + [e.target];
        }
        k := k + 1;
      }
    }

    /**
     * `computeMaxFlow`: augment along the search tree's sink path until the sink is out of
     * reach. The result is the value gained; the final flow's value equals the capacity of
     * the cut the last search leaves and is bounded by every cut.
     */
    method ComputeMaxFlow(source: Vertex, sink: Vertex) returns (maxFlow: int, ghost cut: set<Vertex>)
      requires network.Valid() && Feasible(network.edges) && Conserves(network.edges, source, sink)
      modifies this, network
      ensures network.Valid() && Feasible(network.edges) && Conserves(network.edges, source, sink)
      ensures SameShape(old(network.edges), network.edges)
      ensures maxFlow == NetOut(network.edges, source) - old(NetOut(network.edges, source))
      ensures source == sink ==> maxFlow == 0 && network.edges == old(network.edges)
      ensures source != sink ==> source in cut && sink !in cut && ResidualClosed(network.edges, cut)
      ensures source != sink ==> NetOut(network.edges, source) == CutCapacity(network.edges, cut)
      ensures forall C: set<Vertex> :: source in C && sink !in C ==> NetOut(network.edges, source) <= CutCapacity(network.edges, C)
    {
      ghost var es0 := network.edges;
      maxFlow := 0;
      var found, order := Bfs(source, sink);
      while found
        invariant network.Valid() && Augmented(es0, network.edges, source, sink, maxFlow)
        invariant SearchTree(parent, order, source) && (found <==> sink in parent)
        invariant forall v :: v in parent ==> network.HasResidualCapacity(parent[v], v)
        invariant ResidualClosed(network.edges, set x | x in order)
        invariant source == sink ==> network.edges == es0
        decreases CapOut(network.edges, source) - NetOut(network.edges, source)
      {
        assert sink != source;
        ghost var before, ls := network.edges, network.lists;
        ValueAtMostCapOut(before, source);
        var pathFlow := PathBottleneck(source, sink, order);
        Bottleneck(before, ls, parent, order, source, sink, pathFlow);
        Augment(network, parent, order, source, sink, pathFlow);
        AugmentStep(es0, before, network.edges, source, sink, maxFlow, pathFlow);
        maxFlow := maxFlow + pathFlow;
        found, order := Bfs(source, sink);
      }
      cut := set x | x in order;
      if source != sink {
        ValueIsClosedCut(network.edges, source, sink, cut);
      }
      forall C: set<Vertex> | source in C && sink !in C
        ensures NetOut(network.edges, source) <= CutCapacity(network.edges, C)
      {
        ValueAtMostCut(network.edges, source, sink, C);
      }
    }

    /**
     * The first loop of a round: INT_MAX lowered to the residual capacity of every hop
     * parent[v] -> v from the sink back to the source that has any.
     */
    method PathBottleneck(source: Vertex, sink: Vertex, ghost order: seq<Vertex>) returns (pathFlow: int)
      requires network.Valid() && SearchTree(parent, order, source) && sink in parent
      ensures pathFlow == PathMin(network.edges, network.lists, parent, order, source, sink)
    {
      ghost var es, ls := network.edges, network.lists;
      PathMinAtMost(es, ls, parent, order, source, sink);
      pathFlow := IntMax;
      var v := sink;
      while v != source
        invariant v in order && pathFlow <= IntMax
        invariant Min(pathFlow, PathMin(es, ls, parent, order, source, v)) == PathMin(es, ls, parent, order, source, sink)
        decreases IndexIn(order, v)
      {
        var u := parent[v];
        PathMinStep(es, ls, parent, order, source, v, pathFlow);
        if network.HasResidualCapacity(u, v) {
          pathFlow := Min(pathFlow, network.GetResidualCapacity(u, v));
        }
        v := u;
      }
    }
  }
}
