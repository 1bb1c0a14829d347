// Dinic's algorithm (include/algorithms/flowNetwork/Dinic.h).
//
// Each phase builds the level graph by a breadth-first search over edges with
// flow < capacity, clears the per-vertex edge pointers, and then repeats the depth-first
// findBlockingFlow from the source until it returns 0. findBlockingFlow descends only
// along edges that climb one level, starting in each vertex's list at that vertex's
// pointer, and on the way back pushes the amount it found onto every edge it descended.

module Dinic {
  import opened GraphTypes
  import opened FlowNetworks
  import opened FlowTheory
  import opened DinicLevels
  import opened DinicSearch

  /** The vertices the level graph has yet to reach. */
  ghost function Unlevelled(ls: map<Vertex, seq<nat>>, source: Vertex, level: map<Vertex, nat>): set<Vertex> {
    (ls.Keys + {source}) - level.Keys
  }

  /** `b` keeps every level `a` assigned. */
  ghost predicate Extends(a: map<Vertex, nat>, b: map<Vertex, nat>) {
    forall v :: v in a ==> v in b && b[v] == a[v]
  }

  /**
   * The first `k` edges of `u`'s list have no residual capacity or lead to a levelled
   * vertex at most one level above `u`.
   */
  ghost predicate LScanned(es: seq<FlowEdge>, ls: map<Vertex, seq<nat>>, level: map<Vertex, nat>, u: Vertex, k: nat)
    requires u in level
  {
    k <= |ListOf(ls, u)| &&
    forall j :: 0 <= j < k ==>
      ListOf(ls, u)[j] < |es| &&
      (Open(es, ListOf(ls, u)[j]) ==>
         es[ListOf(ls, u)[j]].target in level && level[es[ListOf(ls, u)[j]].target] <= level[u] + 1)
  }

  /** All of `u`'s list has been scanned. */
  ghost predicate LClosed(es: seq<FlowEdge>, ls: map<Vertex, seq<nat>>, level: map<Vertex, nat>, u: Vertex)
    requires u in level
  {
    LScanned(es, ls, level, u, |ListOf(ls, u)|)
  }

  /**
   * The queue of buildLevelGraph holds the levelled vertices in the order they were
   * levelled, with non-decreasing levels, none more than one above the head's.
   */
  ghost predicate QueueLevels(level: map<Vertex, nat>, q: seq<Vertex>, head: nat) {
    |q| > 0 && head <= |q| &&
    level.Keys == (set x | x in q) &&
    (forall a, b :: 0 <= a <= b < |q| ==> Lvl(level, q[a]) <= Lvl(level, q[b])) &&
    (head < |q| ==> forall a :: 0 <= a < |q| ==> Lvl(level, q[a]) <= Lvl(level, q[head]) + 1)
  }

  /** The vertices before `head` have been scanned. */
  ghost predicate ScannedBefore(es: seq<FlowEdge>, ls: map<Vertex, seq<nat>>, level: map<Vertex, nat>,
                                q: seq<Vertex>, head: nat)
  {
    forall m :: 0 <= m < head && m < |q| ==> q[m] in level && LClosed(es, ls, level, q[m])
  }

  /** The state of buildLevelGraph after `head` vertices have been dequeued and scanned. */
  ghost predicate Leveling(es: seq<FlowEdge>, ls: map<Vertex, seq<nat>>, source: Vertex, level: map<Vertex, nat>,
                           via: map<Vertex, nat>, q: seq<Vertex>, head: nat)
    requires |es| % 2 == 0
  {
    QueueLevels(level, q, head) && q[0] == source &&
    Layered(es, level, source, via) && ScannedBefore(es, ls, level, q, head)
  }

  lemma LScannedGrows(es: seq<FlowEdge>, ls: map<Vertex, seq<nat>>, a: map<Vertex, nat>, b: map<Vertex, nat>,
                      u: Vertex, k: nat)
    requires u in a && Extends(a, b) && LScanned(es, ls, a, u, k)
    ensures LScanned(es, ls, b, u, k)
  {
  }

  lemma LScannedStep(es: seq<FlowEdge>, ls: map<Vertex, seq<nat>>, level: map<Vertex, nat>, u: Vertex, k: nat)
    requires u in level && LScanned(es, ls, level, u, k) && k < |ListOf(ls, u)|
    requires var i := ListOf(ls, u)[k];
      i < |es| && (Open(es, i) ==> es[i].target in level && level[es[i].target] <= level[u] + 1)
    ensures LScanned(es, ls, level, u, k + 1)
  {
  }

  lemma SetOfAppendL(q: seq<Vertex>, t: Vertex)
    ensures (set x | x in q + [t]) == (set x | x in q) + {t}
  {
  }

  /** Queuing an unlevelled `t` one level above the head keeps the queue ordered. */
  lemma QueueExtend(level: map<Vertex, nat>, q: seq<Vertex>, head: nat, u: Vertex, t: Vertex)
    requires QueueLevels(level, q, head) && head < |q| && q[head] == u && t !in level
    ensures QueueLevels(level[t := Lvl(level, u) + 1], q + [t], head)
  {
    var level1, q1 := level[t := Lvl(level, u) + 1], q + [t];
    SetOfAppendL(q, t);
    assert forall x :: x in q ==> x != t;
    forall a, b | 0 <= a <= b < |q1| ensures Lvl(level1, q1[a]) <= Lvl(level1, q1[b]) {
      if b < |q| {
        assert Lvl(level1, q1[a]) == Lvl(level, q[a]) && Lvl(level1, q1[b]) == Lvl(level, q[b]);
      } else if a < |q| {
        assert Lvl(level1, q1[a]) == Lvl(level, q[a]);
      }
    }
    forall a | 0 <= a < |q1| ensures Lvl(level1, q1[a]) <= Lvl(level1, q1[head]) + 1 {
      if a < |q| {
        assert Lvl(level1, q1[a]) == Lvl(level, q[a]);
      }
    }
  }

  /** Levelling the target `t` of a residual edge `i` of a levelled vertex keeps the layering. */
  lemma LayeredExtend(es: seq<FlowEdge>, level: map<Vertex, nat>, source: Vertex, via: map<Vertex, nat>, i: nat)
    requires |es| % 2 == 0 && Layered(es, level, source, via)
    requires i < |es| && Home(es, i) in level && Open(es, i) && es[i].target !in level
    ensures var t := es[i].target;
      Layered(es, level[t := level[Home(es, i)] + 1], source, via[t := i])
  {
    var t, u := es[i].target, Home(es, i);
    var level1, via1 := level[t := level[u] + 1], via[t := i];
    assert |level1| == |level| + 1;
    forall v | v in level1 ensures level1[v] < |level1| {
      if v != t {
        assert level1[v] == level[v];
      }
    }
    forall v | v in level1 && v != source
      ensures v in via1 && Open(es, via1[v]) && es[via1[v]].target == v &&
              Home(es, via1[v]) in level1 && level1[v] == level1[Home(es, via1[v])] + 1
    {
      if v != t {
        assert Home(es, via[v]) != t;
      }
    }
  }

  /** Scanned vertices stay scanned when a new vertex is levelled. */
  lemma ScannedExtend(es: seq<FlowEdge>, ls: map<Vertex, seq<nat>>, level: map<Vertex, nat>, q: seq<Vertex>,
                      head: nat, t: Vertex, x: nat)
    requires ScannedBefore(es, ls, level, q, head) && head <= |q| && t !in level
    ensures ScannedBefore(es, ls, level[t := x], q + [t], head)
  {
    forall m | 0 <= m < head && m < |q + [t]| ensures (q + [t])[m] in level[t := x] && LClosed(es, ls, level[t := x], (q + [t])[m]) {
      if m < |q| {
        assert (q + [t])[m] == q[m];
        LScannedGrows(es, ls, level, level[t := x], q[m], |ListOf(ls, q[m])|);
      }
    }
  }

  lemma LevelingFrom(es: seq<FlowEdge>, ls: map<Vertex, seq<nat>>, source: Vertex, level: map<Vertex, nat>,
                     via: map<Vertex, nat>, q: seq<Vertex>, head: nat)
    requires |es| % 2 == 0 && QueueLevels(level, q, head) && Layered(es, level, source, via)
    requires ScannedBefore(es, ls, level, q, head) && |q| > 0 && q[0] == source
    ensures Leveling(es, ls, source, level, via, q, head)
  {
  }

  /** Levelling the unlevelled target `t` of a residual edge `i` of the head `u` keeps the state. */
  lemma Discover(es: seq<FlowEdge>, ls: map<Vertex, seq<nat>>, source: Vertex, level: map<Vertex, nat>,
                 via: map<Vertex, nat>, q: seq<Vertex>, head: nat, u: Vertex, i: nat)
    requires Wf(es, ls) && Leveling(es, ls, source, level, via, q, head) && head < |q| && q[head] == u
    requires i < |es| && Home(es, i) == u && Open(es, i) && es[i].target !in level
    ensures u in level
    ensures var t := es[i].target;
      Leveling(es, ls, source, level[t := level[u] + 1], via[t := i], q + [t], head) &&
      Unlevelled(ls, source, level[t := level[u] + 1]) < Unlevelled(ls, source, level) &&
      Extends(level, level[t := level[u] + 1])
  {
    var t := es[i].target;
    assert u in level by {
      assert u in set x | x in q;
    }
    DiscoverLevels(es, ls, source, level, via, q, head, u, i);
    DiscoverShrinks(es, ls, source, level, i, level[u] + 1);
  }

  lemma DiscoverLevels(es: seq<FlowEdge>, ls: map<Vertex, seq<nat>>, source: Vertex, level: map<Vertex, nat>,
                       via: map<Vertex, nat>, q: seq<Vertex>, head: nat, u: Vertex, i: nat)
    requires |es| % 2 == 0 && Leveling(es, ls, source, level, via, q, head) && head < |q| && q[head] == u
    requires i < |es| && Home(es, i) == u && Open(es, i) && es[i].target !in level && u in level
    ensures var t := es[i].target;
      Leveling(es, ls, source, level[t := level[u] + 1], via[t := i], q + [t], head)
  {
    var t := es[i].target;
    var level1, via1, q1 := level[t := level[u] + 1], via[t := i], q + [t];
    QueueExtend(level, q, head, u, t);
    assert level[t := Lvl(level, u) + 1] == level1;
    LayeredExtend(es, level, source, via, i);
    ScannedExtend(es, ls, level, q, head, t, level[u] + 1);
    assert q1[0] == source;
    LevelingFrom(es, ls, source, level1, via1, q1, head);
  }

  lemma DiscoverShrinks(es: seq<FlowEdge>, ls: map<Vertex, seq<nat>>, source: Vertex, level: map<Vertex, nat>,
                        i: nat, x: nat)
    requires Wf(es, ls) && i < |es| && es[i].target !in level
    ensures var t := es[i].target;
      Unlevelled(ls, source, level[t := x]) < Unlevelled(ls, source, level) && Extends(level, level[t := x])
  {
    TargetListed(es, ls, i);
    var t := es[i].target;
    assert t in Unlevelled(ls, source, level) && t !in Unlevelled(ls, source, level[t := x]);
  }

  /** No levelled vertex is more than one level above the head of the queue. */
  lemma TopBound(level: map<Vertex, nat>, q: seq<Vertex>, head: nat, t: Vertex)
    requires QueueLevels(level, q, head) && head < |q| && t in level
    ensures Lvl(level, t) <= Lvl(level, q[head]) + 1
  {
    assert t in set x | x in q;
    var a :| 0 <= a < |q| && q[a] == t;
  }

  /** Dequeuing a scanned head keeps the state of buildLevelGraph. */
  lemma Advance(es: seq<FlowEdge>, ls: map<Vertex, seq<nat>>, source: Vertex, level: map<Vertex, nat>,
                via: map<Vertex, nat>, q: seq<Vertex>, head: nat)
    requires Wf(es, ls) && Leveling(es, ls, source, level, via, q, head) && head < |q|
    requires q[head] in level && LClosed(es, ls, level, q[head])
    ensures Leveling(es, ls, source, level, via, q, head + 1)
  {
    if head + 1 < |q| {
      forall a | 0 <= a < |q| ensures Lvl(level, q[a]) <= Lvl(level, q[head + 1]) + 1 {
        assert Lvl(level, q[a]) <= Lvl(level, q[head]) + 1;
        assert Lvl(level, q[head]) <= Lvl(level, q[head + 1]);
      }
    }
  }

  /** When every queued vertex has been scanned, the level graph is breadth-first closed. */
  lemma AllLClosed(es: seq<FlowEdge>, ls: map<Vertex, seq<nat>>, level: map<Vertex, nat>, q: seq<Vertex>)
    requires Wf(es, ls) && level.Keys == (set x | x in q)
    requires forall m :: 0 <= m < |q| ==> q[m] in level && LClosed(es, ls, level, q[m])
    ensures LevelClosed(es, level)
  {
    forall i | 0 <= i < |es| && Home(es, i) in level && Open(es, i)
      ensures es[i].target in level && level[es[i].target] <= level[Home(es, i)] + 1
    {
      InHomeList(es, ls, i);
      var w := Home(es, i);
      var m :| 0 <= m < |q| && q[m] == w;
      assert LClosed(es, ls, level, q[m]);
      var j :| 0 <= j < |ListOf(ls, w)| && ListOf(ls, w)[j] == i;
    }
  }

  /** The state of buildLevelGraph once the source alone is queued. */
  lemma Start(es: seq<FlowEdge>, ls: map<Vertex, seq<nat>>, source: Vertex)
    requires Wf(es, ls)
    ensures Leveling(es, ls, source, map[source := 0], map[], [source], 0)
  {
    assert (set x | x in [source]) == {source};
  }

  /** Once the queue is exhausted, the levels form a closed layering. */
  lemma Finish(es: seq<FlowEdge>, ls: map<Vertex, seq<nat>>, source: Vertex, level: map<Vertex, nat>,
               via: map<Vertex, nat>, q: seq<Vertex>, head: nat)
    requires Wf(es, ls) && Leveling(es, ls, source, level, via, q, head) && head >= |q|
    ensures Layered(es, level, source, via) && LevelClosed(es, level)
  {
    AllLClosed(es, ls, level, q);
  }

  /** The levelled vertices of a closed level graph have no residual edge leaving them. */
  lemma LevelClosedResidual(es: seq<FlowEdge>, level: map<Vertex, nat>)
    requires |es| % 2 == 0 && LevelClosed(es, level)
    ensures ResidualClosed(es, level.Keys)
  {
    forall i | 0 <= i < |es| && Home(es, i) in level.Keys && es[i].flow < es[i].capacity
      ensures es[i].target in level.Keys
    {
      assert Open(es, i);
    }
  }

  /**
   * A positive findBlockingFlow from the source keeps the flow feasible and conserved,
   * keeps the structure, and adds its result to the value of the flow.
   */
  lemma AfterPush(es: seq<FlowEdge>, es1: seq<FlowEdge>, level: map<Vertex, nat>, source: Vertex, sink: Vertex,
                  c: int, f: int, path: seq<nat>)
    requires Feasible(es) && Conserves(es, source, sink) && source != sink && c > 0 && f > 0
    requires Pushed(es, es1, level, source, sink, c, f, path)
    ensures SameShape(es, es1) && |es1| % 2 == 0 && Feasible(es1) && Conserves(es1, source, sink)
    ensures NetOut(es1, source) == NetOut(es, source) + f
    ensures CapOut(es1, source) == CapOut(es, source)
  {
    PathCapBounds(es, level, source, sink, path, c);
    PushAllFeasible(es, level, source, sink, path, f);
    PushAllNetOut(es, level, source, sink, path, f, source);
    forall v | v != source && v != sink ensures NetOut(es1, v) == 0 {
      PushAllNetOut(es, level, source, sink, path, f, v);
    }
    CapSumShape(es, es1, {source}, All, |es|);
  }

  /**
   * The search behind findBlockingFlow on the values of the edge arena `es`, the adjacency
   * lists `ls` and the pointers `ptr`, returning their new values: `getAdjacentMut(u)`, then
   * the scan of `u`'s list from its pointer.
   */
  method Search(es: seq<FlowEdge>, ls: map<Vertex, seq<nat>>, level: map<Vertex, nat>, ptr: map<Vertex, nat>,
                u: Vertex, sink: Vertex, minCap: int)
    returns (flow: int, ghost path: seq<nat>, es': seq<FlowEdge>, ls': map<Vertex, seq<nat>>, ptr': map<Vertex, nat>)
    requires Wf(es, ls) && Bounded(level) && minCap > 0 && PtrSound(es, ls, level, sink, ptr)
    decreases |level| - Lvl(level, u), 2
    ensures Wf(es', ls')
    ensures ls' == if u == sink || u in ls then ls else ls[u := []]
    ensures Found(es, es', ls', level, sink, u, minCap, flow, path, ptr, ptr')
  {
    if u == sink {
      AtSink(es, ls, level, sink, minCap, ptr);
      return minCap, [], es, ls, ptr;
    }
    var p: map<Vertex, nat> := ptr;
    if u !in p {
      PtrSoundZero(es, ls, level, sink, p, u);
      p := p[u := 0];
    }
    PtrAdvanceSet(ptr, level, u, p[u]);
    assert p == ptr[u := p[u]];
    ls' := if u in ls then ls else ls[u := []];
    TouchedWf(es, ls, u);
    TouchedLists(ls, u);
    PtrSoundSameLists(es, ls, ls', level, sink, p);
    flow, path, es', ptr' := ScanFrom(es, ls', level, p, u, sink, minCap);
    FoundFrom(es, es', ls', level, sink, u, minCap, flow, path, ptr, p, ptr');
  }

  /** The loop of findBlockingFlow at `u`, from `u`'s pointer to the end of its list. */
  method ScanFrom(es: seq<FlowEdge>, ls: map<Vertex, seq<nat>>, level: map<Vertex, nat>, ptr: map<Vertex, nat>,
                  u: Vertex, sink: Vertex, minCap: int)
    returns (flow: int, ghost path: seq<nat>, es': seq<FlowEdge>, ptr': map<Vertex, nat>)
    requires Wf(es, ls) && Bounded(level) && minCap > 0 && u != sink && u in ls
    requires PtrSound(es, ls, level, sink, ptr) && u in ptr && ptr[u] <= |ls[u]|
    decreases |level| - Lvl(level, u), 1
    ensures Wf(es', ls)
    ensures Found(es, es', ls, level, sink, u, minCap, flow, path, ptr, ptr')
  {
    var ids := ls[u];
    var p: map<Vertex, nat> := ptr;
    while p[u] < |ids|
      invariant u in p && p[u] <= |ids|
      invariant PtrMoved(es, ls, level, sink, ptr, p, Lvl(level, u))
      decreases |ids| - p[u]
    {
      var i := ids[p[u]];
      ListEntry(es, ls, u, p[u]);
      if Lvl(level, es[i].target) == Lvl(level, u) + 1 && es[i].flow < es[i].capacity {
        var f, es1, p1;
        ghost var q;
        f, q, es1, p1 := DescendAlong(es, ls, level, p, u, sink, minCap, i);
        Tried(es, es1, ls, level, sink, u, minCap, f, q, ptr, p, if f == 0 then p1[u := p1[u] + 1] else p1);
        if f > 0 {
          return f, q, es1, p1;
        }
        p := p1[u := p1[u] + 1];
      } else {
        Passed(es, ls, level, sink, u, i, minCap, p);
        Tried(es, es, ls, level, sink, u, minCap, 0, [], ptr, p, p[u := p[u] + 1]);
        p := p[u := p[u] + 1];
      }
    }
    NotFound(es, ls, level, sink, u, minCap, ptr, p);
    return 0, [], es, p;
  }

  /**
   * The descent along the admissible entry `i` at `u`'s pointer, and on success the push
   * `e.flow += flow; e.reverse->flow -= flow` on the way back.
   */
  method DescendAlong(es: seq<FlowEdge>, ls: map<Vertex, seq<nat>>, level: map<Vertex, nat>, ptr: map<Vertex, nat>,
                      u: Vertex, sink: Vertex, minCap: int, i: nat)
    returns (flow: int, ghost path: seq<nat>, es': seq<FlowEdge>, ptr': map<Vertex, nat>)
    requires Wf(es, ls) && Bounded(level) && minCap > 0 && u != sink && u in ls
    requires PtrSound(es, ls, level, sink, ptr)
    requires u in ptr && ptr[u] < |ls[u]| && ls[u][ptr[u]] == i
    requires i < |es| && Admissible(es, level, i) && Home(es, i) == u
    decreases |level| - Lvl(level, u), 0
    ensures Wf(es', ls) && u in ptr'
    ensures Entry(es, es', ls, level, sink, u, minCap, flow, path, ptr, if flow == 0 then ptr'[u := ptr'[u] + 1] else ptr')
  {
    DescentStart(es, ls, level, i, minCap);
    var ls1;
    flow, path, es', ls1, ptr' := Search(es, ls, level, ptr, es[i].target, sink, Min(minCap, es[i].capacity - es[i].flow));
    if flow > 0 {
      var es1 := es';
      Carry(es, es1, level, u, sink, i, path, minCap, flow);
      es' := PushAt(es1, i, flow);
      ShapeKeepsWf(es1, es', ls);
      PtrSoundShrinks(es1, es', ls, level, sink, ptr');
      Carried(es, es1, es', ls, level, sink, u, i, minCap, flow, path, ptr, ptr', es[i].target,
              Min(minCap, es[i].capacity - es[i].flow));
      path := [i] + path;
    } else {
      Declined(es, es', ls, level, sink, u, i, minCap, path, ptr, ptr', es[i].target,
              Min(minCap, es[i].capacity - es[i].flow));
    }
  }

  class DinicSolver {
    const network: FlowNetwork
    /** The level of every vertex the last breadth-first search reached. */
    var level: map<Vertex, nat>
    /** The position in each vertex's list at which the next descent starts. */
    var ptr: map<Vertex, nat>
    var source: Vertex
    var sink: Vertex

    constructor (network: FlowNetwork)
      ensures this.network == network && level == map[] && ptr == map[]
      ensures source == Vertex(0) && sink == Vertex(0)
    {
      this.network := network;
      level := map[];
      ptr := map[];
      source := Vertex(0);
      sink := Vertex(0);
    }

    /**
     * `buildLevelGraph`: a breadth-first search of the residual network from the source.
     * The new level map is a layering reached over residual edges and closed under them,
     * so every level is the fewest residual edges from the source; the result says
     * whether the sink has a level.
     */
    method BuildLevelGraph(source: Vertex, sink: Vertex) returns (reached: bool, ghost via: map<Vertex, nat>)
      requires network.Valid()
      modifies this`level
      ensures reached <==> sink in level
      ensures Layered(network.edges, level, source, via) && LevelClosed(network.edges, level)
    {
      ghost var es, ls := network.edges, network.lists;
      var lv: map<Vertex, nat> := map[];
      var q := [source];
      lv := lv[source := 0];
      via := map[];
      var head := 0;
      Start(es, ls, source);
      while head < |q|
        invariant Leveling(es, ls, source, lv, via, q, head)
        decreases Unlevelled(ls, source, lv), |q| - head
      {
        lv, q, via, head := Dequeue(source, lv, q, via, head);
      }
      Finish(es, ls, source, lv, via, q, head);
      level := lv;
      reached := sink in level;
    }

    /** One round of buildLevelGraph's outer loop: dequeue the head and scan its list. */
    method Dequeue(source: Vertex, level0: map<Vertex, nat>, q0: seq<Vertex>, ghost via0: map<Vertex, nat>,
                   head0: nat)
      returns (lv: map<Vertex, nat>, q: seq<Vertex>, ghost via: map<Vertex, nat>, head: nat)
      requires network.Valid() && Leveling(network.edges, network.lists, source, level0, via0, q0, head0)
      requires head0 < |q0|
      ensures Leveling(network.edges, network.lists, source, lv, via, q, head)
      ensures head == head0 + 1
      ensures (q == q0 && lv == level0) ||
              Unlevelled(network.lists, source, lv) < Unlevelled(network.lists, source, level0)
    {
      var u := q0[head0];
      lv, q, via := ScanLevel(source, u, head0, level0, q0, via0);
      Advance(network.edges, network.lists, source, lv, via, q, head0);
      head := head0 + 1;
    }

    /** The inner loop of buildLevelGraph for the dequeued `u`. */
    method ScanLevel(source: Vertex, u: Vertex, ghost head: nat, level0: map<Vertex, nat>, q0: seq<Vertex>,
                     ghost via0: map<Vertex, nat>)
      returns (lv: map<Vertex, nat>, q: seq<Vertex>, ghost via: map<Vertex, nat>)
      requires network.Valid() && Leveling(network.edges, network.lists, source, level0, via0, q0, head)
      requires head < |q0| && q0[head] == u
      ensures Leveling(network.edges, network.lists, source, lv, via, q, head)
      ensures q0 <= q && u in lv && LClosed(network.edges, network.lists, lv, u)
      ensures (q == q0 && lv == level0) ||
              Unlevelled(network.lists, source, lv) < Unlevelled(network.lists, source, level0)
    {
      ghost var es, ls := network.edges, network.lists;
      var adj := network.GetAdjacent(u);
      ghost var ids := ListOf(ls, u);
      lv := level0;
      assert u in lv by {
        assert u in set x | x in q0;
      }
      q, via := q0, via0;
      var k := 0;
      while k < |adj|
        invariant 0 <= k <= |adj| == |ids|
        invariant q0 <= q && u in level0 && u in lv && lv[u] == level0[u]
        invariant (q == q0 && lv == level0) || Unlevelled(ls, source, lv) < Unlevelled(ls, source, level0)
        invariant Leveling(es, ls, source, lv, via, q, head)
        invariant LScanned(es, ls, lv, u, k)
        decreases |adj| - k
      {
        var e := adj[k];
        ListEntry(es, ls, u, k);
        assert e == es[ids[k]];
        if e.target !in lv && e.flow < e.capacity {
          ghost var before := lv;
          Discover(es, ls, source, lv, via, q, head, u, ids[k]);
          lv := lv[e.target := lv[u] + 1];
          via := via[e.target := ids[k]];
          q := q + [e.target];
          LScannedGrows(es, ls, before, lv, u, k);
        } else if e.flow < e.capacity {
          TopBound(lv, q, head, e.target);
        }
        LScannedStep(es, ls, lv, u, k);
        k := k + 1;
      }
    }

    /**
     * `findBlockingFlow(u, sink, minCap)`: a depth-first descent from `u` along admissible
     * edges, resuming each list at its pointer. A positive result is the bottleneck, capped
     * by `minCap`, of a level path from `u` to the sink, and that amount has been pushed along
     * the path; 0 means that `u` does not reach the sink and nothing changed. The pointers only
     * advance, never past an entry that can still carry flow to the sink, and never past the
     * edge that just carried flow.
     */
    method FindBlockingFlow(u: Vertex, sink: Vertex, minCap: int) returns (flow: int, ghost path: seq<nat>)
      requires network.Valid() && Bounded(level) && minCap > 0
      requires PtrSound(network.edges, network.lists, level, sink, ptr)
      modifies this`ptr, network
      ensures network.Valid()
      ensures network.lists == if u == sink || u in old(network.lists) then old(network.lists)
                               else old(network.lists)[u := []]
      ensures Found(old(network.edges), network.edges, network.lists, level, sink, u, minCap, flow, path, old(ptr), ptr)
    {
      var es, ls, p;
      flow, path, es, ls, p := Search(network.edges, network.lists, level, ptr, u, sink, minCap);
      network.edges, network.lists := es, ls;
      ptr := p;
    }

    /** `initializePtr`: every pointer is back at the start of its list. */
    method InitializePtr()
      requires network.Valid()
      modifies this`ptr, network`lists
      ensures ptr == map[]
      ensures network.Valid()
      ensures network.lists == if source in old(network.lists) then old(network.lists)
                               else old(network.lists)[source := []]
    {
      ptr := map[];
      var ids := network.GetAdjacentMut(source);
    }

    /**
     * `computeMaxFlow`: phases of a level graph and blocking flows until the level graph
     * misses the sink. The result is the value gained; the final flow's value equals the
     * capacity of the cut of levelled vertices and is bounded by every cut.
     */
    method ComputeMaxFlow(source: Vertex, sink: Vertex) returns (maxFlow: int, ghost cut: set<Vertex>)
      requires network.Valid() && Feasible(network.edges) && Conserves(network.edges, source, sink) && source != sink
      modifies this, network
      ensures network.Valid() && Feasible(network.edges) && Conserves(network.edges, source, sink)
      ensures SameShape(old(network.edges), network.edges)
      ensures maxFlow == NetOut(network.edges, source) - old(NetOut(network.edges, source))
      ensures source in cut && sink !in cut && ResidualClosed(network.edges, cut)
      ensures NetOut(network.edges, source) == CutCapacity(network.edges, cut)
      ensures forall C: set<Vertex> :: source in C && sink !in C ==> NetOut(network.edges, source) <= CutCapacity(network.edges, C)
    {
      this.source := source;
      this.sink := sink;
      ghost var es0 := network.edges;
      maxFlow := 0;
      var more, via := BuildLevelGraph(source, sink);
      while more
        invariant network.Valid() && Feasible(network.edges) && Conserves(network.edges, source, sink)
        invariant SameShape(es0, network.edges) && CapOut(network.edges, source) == CapOut(es0, source)
        invariant maxFlow == NetOut(network.edges, source) - NetOut(es0, source)
        invariant this.source == source && this.sink == sink
        invariant Layered(network.edges, level, source, via) && LevelClosed(network.edges, level)
        invariant more <==> sink in level
        decreases CapOut(network.edges, source) - NetOut(network.edges, source)
      {
        ValueAtMostCapOut(network.edges, source);
        maxFlow := Phase(source, sink, maxFlow, via, es0);
        ValueAtMostCapOut(network.edges, source);
        more, via := BuildLevelGraph(source, sink);
      }
      cut := level.Keys;
      LevelClosedResidual(network.edges, level);
      ValueIsClosedCut(network.edges, source, sink, cut);
      forall C: set<Vertex> | source in C && sink !in C
        ensures NetOut(network.edges, source) <= CutCapacity(network.edges, C)
      {
        ValueAtMostCut(network.edges, source, sink, C);
      }
    }

    /**
     * One phase of computeMaxFlow: initializePtr, then findBlockingFlow from the source until
     * it returns 0, adding each result to `maxFlow`. The level graph reaches the sink, so
     * the first search already pushes a positive amount.
     */
    method Phase(source: Vertex, sink: Vertex, maxFlow0: int, ghost via: map<Vertex, nat>, ghost es0: seq<FlowEdge>)
      returns (maxFlow: int)
      requires network.Valid() && Feasible(network.edges) && Conserves(network.edges, source, sink) && source != sink
      requires SameShape(es0, network.edges) && CapOut(network.edges, source) == CapOut(es0, source)
      requires maxFlow0 == NetOut(network.edges, source) - NetOut(es0, source)
      requires this.source == source && this.sink == sink
      requires Layered(network.edges, level, source, via) && sink in level
      modifies this`ptr, network
      ensures network.Valid() && Feasible(network.edges) && Conserves(network.edges, source, sink)
      ensures SameShape(es0, network.edges) && CapOut(network.edges, source) == CapOut(es0, source)
      ensures maxFlow == NetOut(network.edges, source) - NetOut(es0, source)
      ensures NetOut(network.edges, source) > old(NetOut(network.edges, source))
    {
      ghost var start := NetOut(network.edges, source);
      InitializePtr();
      SourceReaches(network.edges, network.lists, level, source, sink, via);
      maxFlow := maxFlow0;
      var flow;
      ghost var before, path := network.edges, [];
      flow, path := FindBlockingFlow(source, sink, IntMax);
      AfterPush(before, network.edges, level, source, sink, IntMax, flow, path);
      ShapeTransitive(es0, before, network.edges);
      while flow != 0
        invariant network.Valid() && Feasible(network.edges) && Conserves(network.edges, source, sink)
        invariant SameShape(es0, network.edges) && CapOut(network.edges, source) == CapOut(es0, source)
        invariant flow >= 0 && maxFlow + flow == NetOut(network.edges, source) - NetOut(es0, source)
        invariant NetOut(network.edges, source) > start
        invariant Bounded(level) && PtrSound(network.edges, network.lists, level, sink, ptr)
        decreases CapOut(es0, source) - NetOut(es0, source) - maxFlow
      {
        ValueAtMostCapOut(network.edges, source);
        maxFlow := maxFlow + flow;
        before := network.edges;
        flow, path := FindBlockingFlow(source, sink, IntMax);
        if flow > 0 {
          AfterPush(before, network.edges, level, source, sink, IntMax, flow, path);
          ShapeTransitive(es0, before, network.edges);
        }
      }
    }
  }
}
