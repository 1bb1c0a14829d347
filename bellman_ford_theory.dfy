// What the Bellman-Ford model computes (include/algorithms/find_distance/BellmanFord.h): relaxing
// only lowers distances, every finite distance is the weight of a walk, `k` rounds bound every
// vertex by the walks of at most `k` edges, and so, on a graph whose edges join listed vertices,
// the run throws exactly when a negative cycle can be reached from the start and otherwise returns
// the shortest distances.

module BellmanFordTheory {
  import opened GraphTypes
  import opened ShortestWalks
  import opened BellmanFord

  /** `r` holds every key of `d` and reads at most what `d` reads, vertex by vertex. */
  ghost predicate Lower(r: Distances, d: Distances) {
    d.Keys <= r.Keys && forall x :: AtMost(At(r, x), At(d, x))
  }

  /** The endpoints of the edges in `ws`. */
  ghost function Ends(ws: seq<WeightedEdge>): set<Vertex> {
    (set e | e in ws :: e.source) + (set e | e in ws :: e.target)
  }

  /** No edge can be relaxed: the map is a feasible potential on the finite vertices. */
  ghost predicate Settled(d: Distances, ws: seq<WeightedEdge>) {
    forall e :: e in ws ==> !Relaxable(d, e)
  }

  /** A finite distance may come from the start or from a vertex that is not listed. */
  ghost predicate Seed(vs: seq<Vertex>, start: Vertex, a: Vertex) {
    a == start || a !in vs
  }

  /** `x` is the weight of a walk from a seed to `v`. */
  ghost predicate Witnessed(vs: seq<Vertex>, ws: seq<WeightedEdge>, start: Vertex, v: Vertex, x: int) {
    exists p, a :: Seed(vs, start, a) && IsWalk(ws, p, a, v) && Weight(p) == x
  }

  /** Every listed vertex has a key, and every finite reading is the weight of a walk from a seed. */
  ghost predicate Sound(vs: seq<Vertex>, ws: seq<WeightedEdge>, start: Vertex, d: Distances) {
    VertexSet(vs) <= d.Keys &&
    forall v :: At(d, v).Fin? ==> Witnessed(vs, ws, start, v, At(d, v).value)
  }

  // ---- the initial map ----

  lemma {:induction false} UnsetFacts(vs: seq<Vertex>)
    ensures Unset(vs).Keys == VertexSet(vs) && forall v :: v in Unset(vs) ==> Unset(vs)[v] == Inf
    decreases |vs|
  {
    if vs != [] {
      var init := vs[..|vs| - 1];
      UnsetFacts(init);
      assert VertexSet(vs) == VertexSet(init) + {vs[|vs| - 1]} by {
        assert vs == init + [vs[|vs| - 1]];
      }
    }
  }

  /** Lines 27-31: the listed vertices read INF, the start reads 0, and nothing else has a key. */
  lemma InitialFacts(vs: seq<Vertex>, start: Vertex)
    ensures var d := Initial(vs, start);
            d.Keys == VertexSet(vs) + {start} && d[start] == Fin(0) &&
            forall v :: v in d && v != start ==> d[v] == Inf
  {
    UnsetFacts(vs);
  }

  // ---- one relaxation ----

  /** Relaxing an edge lowers at most its target and adds at most its two endpoints as keys. */
  lemma RelaxLowers(d: Distances, e: WeightedEdge)
    ensures Lower(Relax(d, e), d) && Relax(d, e).Keys <= d.Keys + {e.source, e.target}
    ensures forall x :: x != e.target ==> At(Relax(d, e), x) == At(d, x)
  {
  }

  /** After relaxing `e` its target is at most its source plus its weight. */
  lemma RelaxReaches(d: Distances, e: WeightedEdge)
    ensures AtMost(At(Relax(d, e), e.target), AddWeight(At(d, e.source), e.weight))
  {
  }

  lemma LowerTrans(a: Distances, b: Distances, c: Distances)
    requires Lower(a, b) && Lower(b, c)
    ensures Lower(a, c)
  {
    forall x ensures AtMost(At(a, x), At(c, x)) {
      assert AtMost(At(a, x), At(b, x)) && AtMost(At(b, x), At(c, x));
    }
  }

  // ---- rounds ----

  lemma {:induction false} RoundLowers(d: Distances, ws: seq<WeightedEdge>)
    ensures Lower(Round(d, ws), d) && Round(d, ws).Keys <= d.Keys + Ends(ws)
    decreases |ws|
  {
    if ws != [] {
      var init, e := ws[..|ws| - 1], ws[|ws| - 1];
      RoundLowers(d, init);
      RelaxLowers(Round(d, init), e);
      LowerTrans(Round(d, ws), Round(d, init), d);
      assert Ends(init) <= Ends(ws) && e.source in Ends(ws) && e.target in Ends(ws);
    }
  }

  lemma {:induction false} RoundsLowers(d: Distances, ws: seq<WeightedEdge>, k: nat)
    ensures Lower(Rounds(d, ws, k), d) && Rounds(d, ws, k).Keys <= d.Keys + Ends(ws)
  {
    if k > 0 {
      RoundsLowers(d, ws, k - 1);
      RoundLowers(Rounds(d, ws, k - 1), ws);
      LowerTrans(Rounds(d, ws, k), Rounds(d, ws, k - 1), d);
    }
  }

  /** A round is the round over a prefix followed by the round over the rest. */
  lemma {:induction false} RoundSplit(d: Distances, ws: seq<WeightedEdge>, j: nat)
    requires j <= |ws|
    ensures Round(d, ws) == Round(Round(d, ws[..j]), ws[j..])
    decreases |ws|
  {
    if j == |ws| {
      assert ws[..j] == ws && ws[j..] == [];
    } else {
      var init := ws[..|ws| - 1];
      RoundSplit(d, init, j);
      assert init[..j] == ws[..j];
      assert ws[j..][..|ws[j..]| - 1] == init[j..];
    }
  }

  /** After a round every edge's target is at most what its source read before the round, plus its weight. */
  lemma RoundEdge(d: Distances, ws: seq<WeightedEdge>, i: nat)
    requires i < |ws|
    ensures AtMost(At(Round(d, ws), ws[i].target), AddWeight(At(d, ws[i].source), ws[i].weight))
  {
    var e := ws[i];
    var m := Round(d, ws[..i]);
    RoundLowers(d, ws[..i]);
    assert ws[..i + 1][..i] == ws[..i];
    assert Round(d, ws[..i + 1]) == Relax(m, e);
    RelaxReaches(m, e);
    RoundSplit(d, ws, i + 1);
    RoundLowers(Relax(m, e), ws[i + 1..]);
    assert AtMost(At(m, e.source), At(d, e.source));
  }

  /**
   * Path relaxation: after `k` rounds from a map where the start reads at most 0, every vertex
   * reads at most the weight of every walk from the start with at most `k` edges.
   */
  lemma {:induction false} RoundsBound(d: Distances, ws: seq<WeightedEdge>, start: Vertex, k: nat,
                                      p: seq<WeightedEdge>, v: Vertex)
    requires AtMost(At(d, start), Fin(0)) && IsWalk(ws, p, start, v) && |p| <= k
    ensures AtMost(At(Rounds(d, ws, k), v), Fin(Weight(p)))
  {
    if k > 0 {
      var prev := Rounds(d, ws, k - 1);
      if |p| < k {
        RoundsBound(d, ws, start, k - 1, p, v);
        RoundLowers(prev, ws);
        assert AtMost(At(Rounds(d, ws, k), v), At(prev, v));
      } else {
        var q, e := p[..k - 1], p[k - 1];
        WalkPrefix(ws, p, start, v, k - 1);
        assert Node(p, start, k - 1) == e.source by {
          if k > 1 {
            assert p[k - 2].target == p[k - 1].source;
          }
        }
        RoundsBound(d, ws, start, k - 1, q, e.source);
        assert e in ws;
        var i :| 0 <= i < |ws| && ws[i] == e;
        RoundEdge(prev, ws, i);
        assert Weight(p) == Weight(q) + e.weight;
      }
    }
  }

  // ---- soundness ----

  lemma InitialSound(vs: seq<Vertex>, ws: seq<WeightedEdge>, start: Vertex)
    ensures Sound(vs, ws, start, Initial(vs, start))
  {
    var d := Initial(vs, start);
    InitialFacts(vs, start);
    forall v | At(d, v).Fin? ensures Witnessed(vs, ws, start, v, At(d, v).value) {
      assert IsWalk(ws, [], v, v) && Weight([]) == 0;
    }
  }

  lemma RelaxSound(vs: seq<Vertex>, ws: seq<WeightedEdge>, start: Vertex, d: Distances, e: WeightedEdge)
    requires Sound(vs, ws, start, d) && e in ws
    ensures Sound(vs, ws, start, Relax(d, e))
  {
    var r := Relax(d, e);
    RelaxLowers(d, e);
    forall v | At(r, v).Fin? ensures Witnessed(vs, ws, start, v, At(r, v).value) {
      if v == e.target && Relaxable(d, e) {
        var x := At(d, e.source).value;
        var p, a :| Seed(vs, start, a) && IsWalk(ws, p, a, e.source) && Weight(p) == x;
        WalkAppend(ws, p, a, e.source, e);
      }
    }
  }

  lemma {:induction false} RoundSound(vs: seq<Vertex>, ws: seq<WeightedEdge>, start: Vertex, d: Distances,
                                      es: seq<WeightedEdge>)
    requires Sound(vs, ws, start, d) && forall i :: 0 <= i < |es| ==> es[i] in ws
    ensures Sound(vs, ws, start, Round(d, es))
    decreases |es|
  {
    if es != [] {
      RoundSound(vs, ws, start, d, es[..|es| - 1]);
      RelaxSound(vs, ws, start, Round(d, es[..|es| - 1]), es[|es| - 1]);
    }
  }

  lemma {:induction false} RoundsSound(vs: seq<Vertex>, ws: seq<WeightedEdge>, start: Vertex, d: Distances, k: nat)
    requires Sound(vs, ws, start, d)
    ensures Sound(vs, ws, start, Rounds(d, ws, k))
  {
    if k > 0 {
      RoundsSound(vs, ws, start, d, k - 1);
      RoundSound(vs, ws, start, Rounds(d, ws, k - 1), ws);
    }
  }

  // ---- the check ----

  /** Lines 42-47: the check throws exactly when some edge can still be relaxable; otherwise it only adds keys. */
  lemma {:induction false} CheckFacts(d: Distances, ws: seq<WeightedEdge>)
    ensures Check(d, ws).Err? <==> !Settled(d, ws)
    ensures Check(d, ws).Ok? ==>
              d.Keys <= Check(d, ws).value.Keys <= d.Keys + Ends(ws) &&
              forall x :: At(Check(d, ws).value, x) == At(d, x)
    decreases |ws|
  {
    if ws != [] {
      var init, e := ws[..|ws| - 1], ws[|ws| - 1];
      CheckFacts(d, init);
      assert Ends(init) <= Ends(ws) && e.source in Ends(ws) && e.target in Ends(ws);
      if Check(d, init).Ok? {
        var d1 := Check(d, init).value;
        assert Relaxable(d1, e) == Relaxable(d, e);
      }
      if !Settled(d, ws) && Settled(d, init) {
        assert Relaxable(d, e);
      }
    }
  }

  /** Along a walk from a finite vertex of a settled map, each vertex reads at most the start plus the weight so far. */
  lemma {:induction false} SettledWalk(d: Distances, ws: seq<WeightedEdge>, p: seq<WeightedEdge>, a: Vertex, b: Vertex)
    requires Settled(d, ws) && At(d, a).Fin? && IsWalk(ws, p, a, b)
    ensures At(d, b).Fin? && At(d, b).value <= At(d, a).value + Weight(p)
    decreases |p|
  {
    if p != [] {
      var q, e := p[..|p| - 1], p[|p| - 1];
      WalkPrefix(ws, p, a, b, |p| - 1);
      assert Node(p, a, |p| - 1) == e.source by {
        if |p| > 1 {
          assert p[|p| - 2].target == p[|p| - 1].source;
        }
      }
      SettledWalk(d, ws, q, a, e.source);
      assert !Relaxable(d, e);
    }
  }

  // ---- the whole run ----

  /** The distance map after the rounds, before the check. */
  ghost function Relaxed(vs: seq<Vertex>, ws: seq<WeightedEdge>, start: Vertex): Distances {
    Rounds(Initial(vs, start), ws, RoundCount(|vs|))
  }

  /**
   * For every graph: the run throws exactly when an edge can still be relaxed after the rounds;
   * otherwise every listed vertex and the start have a key, the start reads at most 0, and every
   * finite distance is the weight of a walk from the start or from a vertex that is not listed.
   */
  lemma BellmanFordSound(vs: seq<Vertex>, ws: seq<WeightedEdge>, start: Vertex)
    ensures var r := BellmanFordResult(vs, ws, start);
            (r.Err? <==> !Settled(Relaxed(vs, ws, start), ws)) &&
            (r.Ok? ==> VertexSet(vs) + {start} <= r.value.Keys && AtMost(r.value[start], Fin(0)) &&
                       forall v :: v in r.value && r.value[v].Fin? ==> Witnessed(vs, ws, start, v, r.value[v].value))
  {
    var d0 := Initial(vs, start);
    var d := Relaxed(vs, ws, start);
    InitialFacts(vs, start);
    InitialSound(vs, ws, start);
    RoundsSound(vs, ws, start, d0, RoundCount(|vs|));
    RoundsLowers(d0, ws, RoundCount(|vs|));
    CheckFacts(d, ws);
    var r := BellmanFordResult(vs, ws, start);
    if r.Ok? {
      forall v | v in r.value && r.value[v].Fin? ensures Witnessed(vs, ws, start, v, r.value[v].value) {
        assert At(r.value, v) == At(d, v);
      }
      assert At(r.value, start) == At(d, start);
    }
  }

  /** On a graph whose edges join listed vertices, no key is ever added beyond the listed vertices. */
  lemma ClosedKeys(vs: seq<Vertex>, ws: seq<WeightedEdge>, start: Vertex)
    requires Listed(vs, ws) && start in vs
    ensures Relaxed(vs, ws, start).Keys == VertexSet(vs)
    ensures BellmanFordResult(vs, ws, start).Ok? ==> BellmanFordResult(vs, ws, start).value.Keys == VertexSet(vs)
  {
    InitialFacts(vs, start);
    RoundsLowers(Initial(vs, start), ws, RoundCount(|vs|));
    CheckFacts(Relaxed(vs, ws, start), ws);
    assert Ends(ws) <= VertexSet(vs);
  }

  /** On such a graph a finite distance of a listed vertex is the weight of a walk from the start. */
  lemma FromStart(vs: seq<Vertex>, ws: seq<WeightedEdge>, start: Vertex, v: Vertex, x: int)
    requires Listed(vs, ws) && v in vs && Witnessed(vs, ws, start, v, x)
    ensures exists p :: IsWalk(ws, p, start, v) && Weight(p) == x
  {
    var p, a :| Seed(vs, start, a) && IsWalk(ws, p, a, v) && Weight(p) == x;
    if p != [] {
      assert p[0] in ws;
    }
  }

  /**
   * With no negative cycle reachable from the start, no edge can be relaxed after `|V| - 1`
   * rounds: every finite source is the weight of a walk, the walk extended by the edge is no
   * lighter than one of fewer than `|V|` edges, and the rounds have already bounded the target by it.
   */
  lemma NoCycleSettles(vs: seq<Vertex>, ws: seq<WeightedEdge>, start: Vertex)
    requires Listed(vs, ws) && start in vs && !NegativeCycleFrom(ws, start)
    ensures Settled(Relaxed(vs, ws, start), ws)
  {
    var d0 := Initial(vs, start);
    var d := Relaxed(vs, ws, start);
    InitialFacts(vs, start);
    InitialSound(vs, ws, start);
    RoundsSound(vs, ws, start, d0, RoundCount(|vs|));
    assert RoundCount(|vs|) == |vs| - 1;
    forall e | e in ws ensures !Relaxable(d, e) {
      if At(d, e.source).Fin? {
        var x := At(d, e.source).value;
        FromStart(vs, ws, start, e.source, x);
        var p :| IsWalk(ws, p, start, e.source) && Weight(p) == x;
        WalkAppend(ws, p, start, e.source, e);
        ShortWalk(vs, ws, p + [e], start, e.target);
        var q :| IsWalk(ws, q, start, e.target) && |q| < |vs| && Weight(q) <= Weight(p + [e]);
        RoundsBound(d0, ws, start, RoundCount(|vs|), q, e.target);
      }
    }
  }

  /** The start of a settled run reads a finite value at most 0. */
  lemma StartFinite(vs: seq<Vertex>, ws: seq<WeightedEdge>, start: Vertex)
    ensures AtMost(At(Relaxed(vs, ws, start), start), Fin(0))
  {
    InitialFacts(vs, start);
    RoundsLowers(Initial(vs, start), ws, RoundCount(|vs|));
  }

  /**
   * Lines 42-47 on a graph whose edges join listed vertices: the run throws `runtime_error`
   * exactly when a cycle of negative weight can be reached from the start.
   */
  lemma BellmanFordDetects(vs: seq<Vertex>, ws: seq<WeightedEdge>, start: Vertex)
    requires Listed(vs, ws) && start in vs
    ensures BellmanFordResult(vs, ws, start).Err? <==> NegativeCycleFrom(ws, start)
  {
    var d := Relaxed(vs, ws, start);
    CheckFacts(d, ws);
    if NegativeCycleFrom(ws, start) {
      var p, c, v :| IsWalk(ws, p, start, v) && IsWalk(ws, c, v, v) && Weight(c) < 0;
      if Settled(d, ws) {
        StartFinite(vs, ws, start);
        SettledWalk(d, ws, p, start, v);
        SettledWalk(d, ws, c, v, v);
        assert false;
      }
    } else {
      NoCycleSettles(vs, ws, start);
    }
  }

  /**
   * On a graph whose edges join listed vertices, a run that returns gives every listed vertex
   * its shortest distance from the start: INF exactly for the vertices no walk reaches.
   */
  lemma BellmanFordShortest(vs: seq<Vertex>, ws: seq<WeightedEdge>, start: Vertex)
    requires Listed(vs, ws) && start in vs
    ensures var r := BellmanFordResult(vs, ws, start);
            r.Ok? ==> r.value.Keys == VertexSet(vs) &&
                      forall v :: v in vs ==> ShortestIs(ws, start, v, r.value[v])
  {
    var r := BellmanFordResult(vs, ws, start);
    var d := Relaxed(vs, ws, start);
    ClosedKeys(vs, ws, start);
    if r.Ok? {
      BellmanFordSound(vs, ws, start);
      CheckFacts(d, ws);
      StartFinite(vs, ws, start);
      forall v | v in vs ensures ShortestIs(ws, start, v, r.value[v]) {
        assert r.value[v] == At(d, v);
        forall p | IsWalk(ws, p, start, v) ensures At(d, v).Fin? && At(d, v).value <= Weight(p) {
          SettledWalk(d, ws, p, start, v);
        }
        if r.value[v].Fin? {
          FromStart(vs, ws, start, v, r.value[v].value);
        }
      }
    }
  }
}
