// The state of the lazy-deletion Dijkstra search (include/algorithms/find_distance/Dijkstra.h:23-52)
// and the facts that keep it correct when no edge weight is negative: the distance vector indexed
// by vertex id, the priority queue as a multiset of (distance, vertex) entries, the ids already
// settled by a fresh pop, and the distance of the last pop, which never falls.

module DijkstraQueue {
  import opened GraphTypes
  import opened ShortestWalks

  /** A queue entry `{distance, vertex}`. */
  datatype Entry = Entry(dist: int, vertex: Vertex)

  /**
   * The queue discipline: entries name vertices with a finite distance no larger than the entry
   * and no smaller than the last pop; settled ids are at most the last pop and their remaining
   * entries are stale; each finite distance has at most one entry of its own value, and one
   * unless the id is settled.
   */
  ghost predicate Queued(d: seq<Dist>, pq: multiset<Entry>, done: set<int>, m: int) {
    (forall e :: e in pq ==>
       0 <= e.vertex.id < |d| && d[e.vertex.id].Fin? && d[e.vertex.id].value <= e.dist && m <= e.dist) &&
    (forall i :: i in done ==> 0 <= i < |d| && d[i].Fin? && d[i].value <= m) &&
    (forall e :: e in pq && e.vertex.id in done ==> d[e.vertex.id].value < e.dist) &&
    (forall i :: 0 <= i < |d| && d[i].Fin? ==> pq[Entry(d[i].value, Vertex(i))] <= 1) &&
    (forall i :: 0 <= i < |d| && d[i].Fin? ==> i in done || Entry(d[i].value, Vertex(i)) in pq)
  }

  /** Every edge out of a settled id has been relaxed. */
  ghost predicate RelaxedFrom(ws: seq<WeightedEdge>, d: seq<Dist>, done: set<int>) {
    forall e :: e in ws && e.source.id in done && 0 <= e.source.id < |d| && 0 <= e.target.id < |d| ==>
      d[e.source.id].Fin? && AtMost(d[e.target.id], Fin(d[e.source.id].value + e.weight))
  }

  /** Every finite distance is the weight of its witness walk from the start. */
  ghost predicate Walked(ws: seq<WeightedEdge>, start: Vertex, d: seq<Dist>, paths: seq<seq<WeightedEdge>>) {
    |paths| == |d| &&
    forall i {:trigger paths[i]} :: 0 <= i < |d| && d[i].Fin? ==>
      IsWalk(ws, paths[i], start, Vertex(i)) && Weight(paths[i]) == d[i].value
  }

  /** The start reads a finite distance of at most 0. */
  ghost predicate StartAtMostZero(start: Vertex, d: seq<Dist>) {
    0 <= start.id < |d| && d[start.id].Fin? && d[start.id].value <= 0
  }

  /** `t` is an entry with the smallest distance in the queue: what `pq.top()` returns. */
  predicate IsTop(pq: multiset<Entry>, t: Entry) {
    t in pq && forall e :: e in pq ==> t.dist <= e.dist
  }

  /** A nonempty queue has a top. */
  lemma {:induction false} TopExists(pq: multiset<Entry>)
    requires |pq| > 0
    ensures exists t :: IsTop(pq, t)
    decreases |pq|
  {
    var a :| a in pq;
    var rest := pq - multiset{a};
    if |rest| == 0 {
      assert pq == multiset{a} by {
        assert pq == rest + multiset{a};
      }
      assert IsTop(pq, a);
    } else {
      TopExists(rest);
      var b :| IsTop(rest, b);
      assert pq == rest + multiset{a};
      if a.dist <= b.dist {
        assert IsTop(pq, a);
      } else {
        assert IsTop(pq, b);
      }
    }
  }

  /** Lines 23-26 and 36: the state before the loop. */
  lemma StartState(ws: seq<WeightedEdge>, n: nat, start: Vertex)
    requires 0 <= start.id < n
    ensures var d := seq(n, i => Inf)[start.id := Fin(0)];
            Queued(d, multiset{Entry(0, start)}, {}, 0) && RelaxedFrom(ws, d, {}) &&
            Walked(ws, start, d, seq(n, i => [])) && StartAtMostZero(start, d)
  {
    var d := seq(n, i => Inf)[start.id := Fin(0)];
    var paths: seq<seq<WeightedEdge>> := seq(n, i => []);
    forall i | 0 <= i < |d| && d[i].Fin?
      ensures IsWalk(ws, paths[i], start, Vertex(i)) && Weight(paths[i]) == d[i].value
    {
      assert i == start.id && Vertex(i) == start;
      assert IsWalk(ws, [], start, start);
    }
    forall i | 0 <= i < |d| && d[i].Fin? ensures Entry(d[i].value, Vertex(i)) in multiset{Entry(0, start)} {
      assert i == start.id && Vertex(i) == start;
    }
  }

  /** Line 43: popping a stale top leaves the discipline intact with the new last pop. */
  lemma PopStale(d: seq<Dist>, pq: multiset<Entry>, done: set<int>, m: int, t: Entry)
    requires Queued(d, pq, done, m) && IsTop(pq, t) && Less(d[t.vertex.id], Fin(t.dist))
    ensures Queued(d, pq - multiset{t}, done, t.dist)
  {
    var pq1 := pq - multiset{t};
    forall i | 0 <= i < |d| && d[i].Fin? ensures i in done || Entry(d[i].value, Vertex(i)) in pq1 {
      if i !in done {
        assert Entry(d[i].value, Vertex(i)) != t;
      }
    }
    forall i | i in done ensures d[i].Fin? && d[i].value <= t.dist {
      if Entry(d[i].value, Vertex(i)) in pq {
      }
    }
  }

  /**
   * Lines 39-43: a top that is not stale holds the vertex's own distance, its id is not yet
   * settled, and settling it keeps the discipline.
   */
  lemma PopFresh(d: seq<Dist>, pq: multiset<Entry>, done: set<int>, m: int, t: Entry)
    requires Queued(d, pq, done, m) && IsTop(pq, t) && !Less(d[t.vertex.id], Fin(t.dist))
    ensures d[t.vertex.id] == Fin(t.dist) && t.vertex.id !in done
    ensures Queued(d, pq - multiset{t}, done + {t.vertex.id}, t.dist)
  {
    var u := t.vertex.id;
    var pq1 := pq - multiset{t};
    assert Vertex(u) == t.vertex;
    assert pq[Entry(d[u].value, Vertex(u))] <= 1;
    assert pq1[t] == 0;
    forall e | e in pq1 && e.vertex.id in done + {u} ensures d[e.vertex.id].value < e.dist {
      if e.vertex.id == u {
        assert e.vertex == t.vertex && e != t;
      }
    }
    forall i | i in done ensures d[i].Fin? && d[i].value <= t.dist {
    }
  }

  /** The id of a vertex: it names the vector entry. */
  lemma VertexOfId(v: Vertex)
    ensures Vertex(v.id) == v
  {
  }

  /**
   * Lines 47-49 after a fresh pop at distance `m`: lowering an entry to `y >= m` and pushing it
   * keeps the discipline, and a settled id is never lowered.
   */
  lemma Lowering(d: seq<Dist>, pq: multiset<Entry>, done: set<int>, m: int, v: Vertex, y: int)
    requires Queued(d, pq, done, m) && 0 <= v.id < |d| && m <= y && Less(Fin(y), d[v.id])
    ensures v.id !in done
    ensures Queued(d[v.id := Fin(y)], pq + multiset{Entry(y, v)}, done, m)
  {
    var d1, pq1 := d[v.id := Fin(y)], pq + multiset{Entry(y, v)};
    VertexOfId(v);
    assert Entry(y, v) !in pq;
    forall e | e in pq1 ensures 0 <= e.vertex.id < |d1| && d1[e.vertex.id].Fin? &&
                                d1[e.vertex.id].value <= e.dist && m <= e.dist {
      if e != Entry(y, v) && e.vertex.id == v.id {
        assert e in pq;
      }
    }
    forall i | 0 <= i < |d1| && d1[i].Fin? ensures pq1[Entry(d1[i].value, Vertex(i))] <= 1 {
      if i != v.id {
        assert Entry(d1[i].value, Vertex(i)) != Entry(y, v);
      }
    }
    forall i | 0 <= i < |d1| && d1[i].Fin? ensures i in done || Entry(d1[i].value, Vertex(i)) in pq1 {
    }
  }

  /** Lowering an unsettled entry keeps the settled ids relaxed. */
  lemma LoweringKeepsRelaxed(ws: seq<WeightedEdge>, d: seq<Dist>, done: set<int>, v: nat, y: int)
    requires RelaxedFrom(ws, d, done) && v < |d| && v !in done && Less(Fin(y), d[v])
    ensures RelaxedFrom(ws, d[v := Fin(y)], done)
  {
  }

  /** Lowering `v` to the weight `y` of the witness of `u` followed by `f` keeps every finite distance walked. */
  lemma LoweringKeepsWalked(ws: seq<WeightedEdge>, start: Vertex, d: seq<Dist>, paths: seq<seq<WeightedEdge>>,
                            u: Vertex, f: WeightedEdge, v: Vertex, y: int)
    requires Walked(ws, start, d, paths) && 0 <= u.id < |d| && d[u.id].Fin? && f in ws && f.source == u
    requires f.target == v && 0 <= v.id < |d| && y == d[u.id].value + f.weight
    ensures Walked(ws, start, d[v.id := Fin(y)], paths[v.id := paths[u.id] + [f]])
  {
    var d1, paths1 := d[v.id := Fin(y)], paths[v.id := paths[u.id] + [f]];
    VertexOfId(u);
    VertexOfId(v);
    WalkAppend(ws, paths[u.id], start, u, f);
    forall i | 0 <= i < |d1| && d1[i].Fin?
      ensures IsWalk(ws, paths1[i], start, Vertex(i)) && Weight(paths1[i]) == d1[i].value
    {
      if i != v.id {
        assert paths1[i] == paths[i];
      }
    }
  }

  /** Along a walk from a finite vertex, with every finite vertex relaxed, distances grow at most by the weight. */
  lemma {:induction false} RelaxedWalk(ws: seq<WeightedEdge>, d: seq<Dist>, done: set<int>,
                                       p: seq<WeightedEdge>, a: Vertex, b: Vertex)
    requires InRange(ws, |d|) && RelaxedFrom(ws, d, done)
    requires forall i :: 0 <= i < |d| && d[i].Fin? ==> i in done
    requires 0 <= a.id < |d| && d[a.id].Fin? && IsWalk(ws, p, a, b)
    ensures 0 <= b.id < |d| && d[b.id].Fin? && d[b.id].value <= d[a.id].value + Weight(p)
    decreases |p|
  {
    if p != [] {
      var q, e := p[..|p| - 1], p[|p| - 1];
      WalkPrefix(ws, p, a, b, |p| - 1);
      assert Node(p, a, |p| - 1) == e.source by {
        if |p| > 1 {
          assert p[|p| - 2].target == p[|p| - 1].source;
        }
      }
      RelaxedWalk(ws, d, done, q, a, e.source);
      assert e in ws;
    }
  }

  /**
   * With the queue empty, every finite distance settled and every settled edge relaxed, each id
   * holds its shortest distance from the start: INF exactly when no walk leads there.
   */
  lemma EmptyQueueShortest(ws: seq<WeightedEdge>, start: Vertex, d: seq<Dist>, paths: seq<seq<WeightedEdge>>,
                            done: set<int>, m: int)
    requires InRange(ws, |d|) && Queued(d, multiset{}, done, m) && RelaxedFrom(ws, d, done)
    requires Walked(ws, start, d, paths) && StartAtMostZero(start, d)
    ensures forall i :: 0 <= i < |d| ==> ShortestIs(ws, start, Vertex(i), d[i])
  {
    forall i | 0 <= i < |d| ensures ShortestIs(ws, start, Vertex(i), d[i]) {
      if d[i].Fin? {
        assert IsWalk(ws, paths[i], start, Vertex(i));
      }
      forall p | IsWalk(ws, p, start, Vertex(i)) ensures d[i].Fin? && d[i].value <= Weight(p) {
        RelaxedWalk(ws, d, done, p, start, Vertex(i));
      }
    }
  }
}
